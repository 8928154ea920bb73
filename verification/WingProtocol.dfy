/** Publishing a manifest and converging on it.

    Any number of tarmak processes upload a manifest and then ask an instance to converge;
    any number of converge runs of the agent on that instance fetch a manifest and report
    their status; the agent's controller decides, from a cached copy of the instance, when a
    run is needed. The protocol is a state machine: every action is one atomic step of one
    party, and a run is any sequence of actions. A party that crashes takes no more steps. */
module WingProtocol {
  import opened Text

  /** Seconds, which is what a stored timestamp keeps. 0 is the zero timestamp. */
  type Time = nat

  /* ---------- the instance object and its admission ---------- */

  datatype ManifestState = Converging | Converged | Error
  datatype Report = Report(state: ManifestState, stamp: Time)
  datatype Spec = Spec(converge: Option<Time>, dryRun: Option<Time>)
  datatype Status = Status(converge: Option<Report>, dryRun: Option<Report>)
  datatype Instance = Instance(spec: Option<Spec>, status: Option<Status>)

  function StampTime(t: Option<Time>, now: Time): Option<Time> {
    if t == Some(0) then Some(now) else t
  }

  function StampReport(r: Option<Report>, now: Time): Option<Report> {
    if r.Some? && r.value.stamp == 0 then Some(r.value.(stamp := now)) else r
  }

  /** The admission plugin: zero timestamps, and only those, become the current time. */
  function Admit(i: Instance, now: Time): Instance {
    Instance(
      if i.spec.None? then None
      else Some(Spec(StampTime(i.spec.value.converge, now), StampTime(i.spec.value.dryRun, now))),
      if i.status.None? then None
      else Some(Status(StampReport(i.status.value.converge, now), StampReport(i.status.value.dryRun, now))))
  }

  /** No timestamp of the object is zero. */
  predicate Stamped(i: Instance) {
    && (i.spec.Some? ==> i.spec.value.converge != Some(0) && i.spec.value.dryRun != Some(0))
    && (i.status.Some? ==>
          && (i.status.value.converge.Some? ==> i.status.value.converge.value.stamp != 0)
          && (i.status.value.dryRun.Some? ==> i.status.value.dryRun.value.stamp != 0))
  }

  /** What `ReapplyConfiguration` sends for a listed instance. */
  function AskFor(i: Instance): Instance {
    i.(spec := Some(Spec(Some(0), if i.spec.Some? then i.spec.value.dryRun else None)))
  }

  /** What `reportStatus` sends: the fetched instance with a fresh copy of the status. */
  function ReportOn(i: Instance, state: ManifestState): Instance {
    i.(status := Some(Status(Some(Report(state, 0)), None)))
  }

  /* ---------- the stores ---------- */

  datatype Op = Reported | Asked | Created | Deleted

  /** One version of the instance object. Its resource version is its index in the log.
      `pointersSeen` and `legacySeen` record how many manifests were published before. */
  datatype Entry = Entry(op: Op, stamp: Time, obj: Option<Instance>, pointersSeen: nat, legacySeen: nat)

  /** An admitted write: an update of version `base`, or a create. */
  datatype Write = Write(base: Option<nat>, obj: Instance, stamp: Time)

  /** A tarmak process in `apply --configuration-only`. `l` and `k` are the positions of its
      writes of the legacy object and of the pointer. */
  datatype Cli =
    | LegacyPut(content: string, l: nat)
    | ObjectPut(content: string, l: nat)
    | Published(content: string, l: nat, k: nat)
    | Listed(l: nat, k: nat, version: nat, copy: Instance)
    | AskAdmitted(l: nat, k: nat, write: Write)
    | AskStored(l: nat, k: nat, version: nat)

  datatype Fetch =
    | NotYet
    | PointerRead(k: nat)
    | HashFetched(k: nat, content: string)
    | LegacyFetched(l: nat, content: string)

  datatype Reporting = Idle | Got(version: nat, copy: Instance) | GotNone | ReportAdmitted(write: Write)

  /** A converge run; `cause` is the version that holds the request the controller saw. */
  datatype Run = Run(cause: Option<nat>, fetch: Fetch, report: Reporting)

  /** A decision of the controller on the first `seen` versions. */
  datatype Sync = Sync(seen: nat, started: Option<nat>)

  datatype State = State(
    now: Time,
    log: seq<Entry>,
    objects: map<string, string>,
    pointers: seq<string>,
    legacy: seq<string>,
    clis: map<nat, Cli>,
    runs: map<nat, Run>,
    seen: nat,
    syncs: seq<Sync>)

  const Init := State(1, [], map[], [], [], map[], map[], 0, [])

  function Current(log: seq<Entry>): Option<Instance> {
    if log == [] then None else log[|log| - 1].obj
  }

  /** The API server's rule: updates are never unconditional and never create. */
  predicate CanCommit(log: seq<Entry>, w: Write) {
    match w.base
    case Some(v) => Current(log).Some? && v == |log| - 1
    case None => Current(log).None?
  }

  function Commit(s: State, op: Op, stamp: Time, obj: Option<Instance>): State {
    s.(log := s.log + [Entry(op, stamp, obj, |s.pointers|, |s.legacy|)])
  }

  /* ---------- the steps ---------- */

  datatype Action =
    | Tick
    | PutLegacy(id: nat, content: string)
    | PutObject(id: nat)
    | PutPointer(id: nat)
    | List(id: nat)
    | AdmitAsk(id: nat)
    | CommitAsk(id: nat)
    | StartRun(t: nat)
    | ReadPointer(t: nat)
    | ReadObject(t: nat)
    | ReadLegacy(t: nat)
    | Get(t: nat)
    | AdmitReport(t: nat, state: ManifestState)
    | CommitReport(t: nat)
    | Observe(n: nat)
    | Decide(t: nat)
    | Delete

  /** `UploadConfiguration` and `ReapplyConfiguration`, one call at a time. */
  function CliStep(md5: string -> string, s: State, id: nat, a: Action): State
    requires id in s.clis
  {
    match (a, s.clis[id])
    case (PutObject(_), LegacyPut(c, l)) =>
      s.(objects := s.objects[md5(c) := c], clis := s.clis[id := ObjectPut(c, l)])
    case (PutPointer(_), ObjectPut(c, l)) =>
      s.(pointers := s.pointers + [md5(c)], clis := s.clis[id := Published(c, l, |s.pointers|)])
    case (List(_), Published(c, l, k)) =>
      if Current(s.log).None? then s
      else s.(clis := s.clis[id := Listed(l, k, |s.log| - 1, Current(s.log).value)])
    case (AdmitAsk(_), Listed(l, k, v, copy)) =>
      s.(clis := s.clis[id := AskAdmitted(l, k, Write(Some(v), Admit(AskFor(copy), s.now), s.now))])
    case (CommitAsk(_), AskAdmitted(l, k, w)) =>
      if !CanCommit(s.log, w) then s
      else Commit(s, Asked, w.stamp, Some(w.obj)).(clis := s.clis[id := AskStored(l, k, |s.log|)])
    case _ => s
  }

  /** `GetManifest` and `reportStatus` of one converge run, one call at a time. A fetch that
      fails leaves the run where it is; the next provider is the legacy object. */
  function RunStep(s: State, t: nat, a: Action): State
    requires t in s.runs
  {
    var r := s.runs[t];
    match a
    case ReadPointer(_) =>
      if r.fetch.NotYet? && s.pointers != [] then
        s.(runs := s.runs[t := r.(fetch := PointerRead(|s.pointers| - 1))])
      else s
    case ReadObject(_) =>
      if r.fetch.PointerRead? && r.fetch.k < |s.pointers| && s.pointers[r.fetch.k] in s.objects then
        s.(runs := s.runs[t := r.(fetch := HashFetched(r.fetch.k, s.objects[s.pointers[r.fetch.k]]))])
      else s
    case ReadLegacy(_) =>
      if (r.fetch.NotYet? || r.fetch.PointerRead?) && s.legacy != [] then
        s.(runs := s.runs[t := r.(fetch := LegacyFetched(|s.legacy| - 1, s.legacy[|s.legacy| - 1]))])
      else s
    case Get(_) =>
      var got := if Current(s.log).Some? then Got(|s.log| - 1, Current(s.log).value) else GotNone;
      s.(runs := s.runs[t := r.(report := got)])
    case AdmitReport(_, state) =>
      (match r.report
       case Got(v, copy) =>
         var w := Write(Some(v), Admit(ReportOn(copy, state), s.now), s.now);
         s.(runs := s.runs[t := r.(report := ReportAdmitted(w))])
       case GotNone =>
         var w := Write(None, Admit(ReportOn(Instance(None, None), state), s.now), s.now);
         s.(runs := s.runs[t := r.(report := ReportAdmitted(w))])
       case _ => s)
    case CommitReport(_) =>
      if !r.report.ReportAdmitted? then s
      else
        var w := r.report.write;
        var s' := if CanCommit(s.log, w)
                  then Commit(s, if w.base.Some? then Reported else Created, w.stamp, Some(w.obj))
                  else s;
        s'.(runs := s.runs[t := r.(report := Idle)])
    case _ => s
  }

  /** `syncToStdout`: converge unless the status is newer than the request. */
  predicate ShouldConverge(i: Instance) {
    && i.spec.Some? && i.spec.value.converge.Some? && i.spec.value.converge.value != 0
    && i.status.Some? && i.status.value.converge.Some? && i.status.value.converge.value.stamp != 0
    && !(i.status.value.converge.value.stamp > i.spec.value.converge.value)
  }

  /** The version that holds the latest request up to version `v`. */
  function LastAsk(log: seq<Entry>, v: nat): (r: nat)
    requires v < |log|
    ensures r <= v
  {
    if log[v].op.Asked? || v == 0 then v else LastAsk(log, v - 1)
  }

  /** The controller looks at its cached copy; an instance it does not see it creates, by a
      write like that of a first report. */
  function DecideStep(s: State, t: nat): State {
    if t in s.runs || s.seen > |s.log| then s
    else if s.seen == 0 || s.log[s.seen - 1].obj.None? then
      s.(runs := s.runs[t := Run(None, NotYet, GotNone)], syncs := s.syncs + [Sync(s.seen, None)])
    else if ShouldConverge(s.log[s.seen - 1].obj.value) then
      var r := LastAsk(s.log, s.seen - 1);
      s.(runs := s.runs[t := Run(Some(r), NotYet, Idle)], syncs := s.syncs + [Sync(s.seen, Some(r))])
    else s.(syncs := s.syncs + [Sync(s.seen, None)])
  }

  /** One step; an action that is not possible changes nothing. */
  function Step(md5: string -> string, s: State, a: Action): State {
    match a
    case Tick => s.(now := s.now + 1)
    case PutLegacy(id, c) =>
      if id in s.clis then s else s.(legacy := s.legacy + [c], clis := s.clis[id := LegacyPut(c, |s.legacy|)])
    case PutObject(id) => if id in s.clis then CliStep(md5, s, id, a) else s
    case PutPointer(id) => if id in s.clis then CliStep(md5, s, id, a) else s
    case List(id) => if id in s.clis then CliStep(md5, s, id, a) else s
    case AdmitAsk(id) => if id in s.clis then CliStep(md5, s, id, a) else s
    case CommitAsk(id) => if id in s.clis then CliStep(md5, s, id, a) else s
    case StartRun(t) => if t in s.runs then s else s.(runs := s.runs[t := Run(None, NotYet, Idle)])
    case ReadPointer(t) => if t in s.runs then RunStep(s, t, a) else s
    case ReadObject(t) => if t in s.runs then RunStep(s, t, a) else s
    case ReadLegacy(t) => if t in s.runs then RunStep(s, t, a) else s
    case Get(t) => if t in s.runs then RunStep(s, t, a) else s
    case AdmitReport(t, _) => if t in s.runs then RunStep(s, t, a) else s
    case CommitReport(t) => if t in s.runs then RunStep(s, t, a) else s
    case Observe(n) => if s.seen <= n <= |s.log| then s.(seen := n) else s
    case Decide(t) => DecideStep(s, t)
    case Delete => if Current(s.log).None? then s else Commit(s, Deleted, s.now, None)
  }

  function Execute(md5: string -> string, s: State, actions: seq<Action>): State
    decreases |actions|
  {
    if actions == [] then s else Execute(md5, Step(md5, s, actions[0]), actions[1..])
  }

  /* ---------- the invariant ---------- */

  predicate IsReport(status: Option<Status>, stamp: Time) {
    && status.Some? && status.value.converge.Some? && status.value.dryRun.None?
    && status.value.converge.value.stamp == stamp
  }

  /** A request: only the converge section of the spec changes. */
  predicate AskOf(old_: Instance, new_: Instance, stamp: Time) {
    && new_.status == old_.status
    && new_.spec == Some(Spec(Some(stamp), if old_.spec.Some? then old_.spec.value.dryRun else None))
  }

  /** A report: only the status changes. */
  predicate ReportOf(old_: Instance, new_: Instance, stamp: Time) {
    new_.spec == old_.spec && IsReport(new_.status, stamp)
  }

  predicate EntryOk(log: seq<Entry>, i: nat)
    requires i < |log|
  {
    var e := log[i];
    && (e.obj.Some? ==> Stamped(e.obj.value) && e.obj.value.status.Some?)
    && e.stamp > 0
    && match e.op
       case Reported => i > 0 && log[i - 1].obj.Some? && e.obj.Some? && log[i - 1].stamp <= e.stamp
                        && ReportOf(log[i - 1].obj.value, e.obj.value, e.stamp)
       case Asked => i > 0 && log[i - 1].obj.Some? && e.obj.Some? && log[i - 1].stamp <= e.stamp
                     && AskOf(log[i - 1].obj.value, e.obj.value, e.stamp)
       case Created => (i > 0 ==> log[i - 1].obj.None?) && e.obj.Some?
                       && e.obj.value.spec.None? && IsReport(e.obj.value.status, e.stamp)
       case Deleted => e.obj.None?
  }

  predicate VersionIs(log: seq<Entry>, v: nat, copy: Instance) {
    v < |log| && log[v].obj == Some(copy)
  }

  /** An update in flight is based on a version it would be a proper successor of. */
  predicate WriteOk(s: State, w: Write, ask: bool) {
    && 0 < w.stamp <= s.now && Stamped(w.obj) && w.obj.status.Some?
    && match w.base
       case Some(v) =>
         && v < |s.log| && s.log[v].obj.Some? && s.log[v].stamp <= w.stamp
         && (if ask then AskOf(s.log[v].obj.value, w.obj, w.stamp) else ReportOf(s.log[v].obj.value, w.obj, w.stamp))
       case None => !ask && w.obj.spec.None? && IsReport(w.obj.status, w.stamp)
  }

  predicate CliOk(md5: string -> string, s: State, c: Cli) {
    && c.l < |s.legacy|
    && match c
       case LegacyPut(content, l) => s.legacy[l] == content
       case ObjectPut(content, l) => s.legacy[l] == content && md5(content) in s.objects
       case Published(content, l, k) => s.legacy[l] == content && k < |s.pointers| && s.pointers[k] == md5(content)
       case Listed(_, k, v, copy) => k < |s.pointers| && VersionIs(s.log, v, copy)
       case AskAdmitted(_, k, w) => k < |s.pointers| && WriteOk(s, w, true)
       case AskStored(l, k, v) =>
         v < |s.log| && s.log[v].op.Asked? && l < s.log[v].legacySeen && k < s.log[v].pointersSeen
  }

  predicate FetchOk(md5: string -> string, s: State, f: Fetch) {
    match f
    case NotYet => true
    case PointerRead(k) => k < |s.pointers|
    case HashFetched(k, c) => k < |s.pointers| && md5(c) == s.pointers[k]
    case LegacyFetched(l, c) => l < |s.legacy| && s.legacy[l] == c
  }

  /** What was fetched was published no earlier than what preceded version `r`. */
  predicate Fresh(s: State, r: nat, f: Fetch)
    requires r < |s.log|
  {
    match f
    case NotYet => true
    case PointerRead(k) => s.log[r].pointersSeen <= k + 1
    case HashFetched(k, _) => s.log[r].pointersSeen <= k + 1
    case LegacyFetched(l, _) => s.log[r].legacySeen <= l + 1
  }

  predicate RunOk(md5: string -> string, s: State, r: Run) {
    && FetchOk(md5, s, r.fetch)
    && (r.cause.Some? ==> r.cause.value < |s.log| && s.log[r.cause.value].op.Asked? && Fresh(s, r.cause.value, r.fetch))
    && match r.report
       case Idle => true
       case GotNone => true
       case Got(v, copy) => VersionIs(s.log, v, copy)
       case ReportAdmitted(w) => WriteOk(s, w, false)
  }

  predicate SyncOk(s: State, e: Sync) {
    && e.seen <= |s.log|
    && (e.started.Some? ==>
          && e.seen > 0 && s.log[e.seen - 1].obj.Some? && ShouldConverge(s.log[e.seen - 1].obj.value)
          && e.started.value == LastAsk(s.log, e.seen - 1))
  }

  predicate EntryBounded(s: State, i: nat)
    requires i < |s.log|
  {
    s.log[i].stamp <= s.now && s.log[i].pointersSeen <= |s.pointers| && s.log[i].legacySeen <= |s.legacy|
  }

  ghost predicate Inv(md5: string -> string, s: State) {
    && s.now > 0
    && s.seen <= |s.log|
    && (forall i :: 0 <= i < |s.log| ==> EntryOk(s.log, i))
    && (forall i :: 0 <= i < |s.log| ==> EntryBounded(s, i))
    && (forall h :: h in s.objects ==> md5(s.objects[h]) == h)
    && (forall k :: 0 <= k < |s.pointers| ==> s.pointers[k] in s.objects)
    && (forall id :: id in s.clis ==> CliOk(md5, s, s.clis[id]))
    && (forall t :: t in s.runs ==> RunOk(md5, s, s.runs[t]))
    && (forall j :: 0 <= j < |s.syncs| ==> SyncOk(s, s.syncs[j]))
  }
}
