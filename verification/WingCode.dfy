/** The code of each party to the converge protocol, call by call.

    Between two calls the other parties may take any steps (`w`), and every call may fail.
    Whatever they do, the calls of the code are steps of the protocol in the protocol's
    order, so what holds in every run of the protocol holds of the code. */
module WingCode {
  import opened Text
  import opened WingProtocol
  import opened WingInvariant
  import opened WingGuarantees
  import opened WingOthers
  import opened WingReports
  import opened WingWait
  import ConvergeRun

  /* ---------- objects the code updates ---------- */

  /** A seekable reader: an upload sends what is left of it. */
  class Reader {
    const content: string
    var pos: nat

    constructor (content: string)
      ensures this.content == content && pos == 0
    {
      this.content, pos := content, 0;
    }

    method ReadAll() returns (body: string)
      requires pos <= |content|
      modifies this
      ensures body == content[old(pos)..] && pos == |content|
    {
      body := content[pos..];
      pos := |content|;
    }

    method Rewind()
      modifies this
      ensures pos == 0
    {
      pos := 0;
    }
  }

  class InstanceObject {
    var spec: Option<Spec>
    var status: Option<Status>

    constructor (i: Instance)
      ensures Value() == i
    {
      spec, status := i.spec, i.status;
    }

    function Value(): Instance
      reads this
    {
      Instance(spec, status)
    }

    /** The admission plugin. */
    method AdmitAt(now: Time)
      modifies this
      ensures Value() == Admit(old(Value()), now)
    {
      if status.Some? {
        if status.value.converge.Some? && status.value.converge.value.stamp == 0 {
          status := Some(status.value.(converge := Some(status.value.converge.value.(stamp := now))));
        }
        if status.value.dryRun.Some? && status.value.dryRun.value.stamp == 0 {
          status := Some(status.value.(dryRun := Some(status.value.dryRun.value.(stamp := now))));
        }
      }
      if spec.Some? {
        if spec.value.converge.Some? && spec.value.converge.value == 0 {
          spec := Some(spec.value.(converge := Some(now)));
        }
        if spec.value.dryRun.Some? && spec.value.dryRun.value == 0 {
          spec := Some(spec.value.(dryRun := Some(now)));
        }
      }
    }
  }

  /* ---------- the parties ---------- */

  /** The calls of the hash provider: none if the pointer cannot be reached, the pointer
      alone if there is none or the object cannot be reached, else both in order. */
  predicate HashCalls(t: nat, w0: seq<Action>, w1: seq<Action>, pointer: bool, object_: bool, steps: seq<Action>) {
    if !pointer then steps == []
    else
      || steps == w0 + [ReadPointer(t)]
      || (object_ && steps == (w0 + [ReadPointer(t)]) + (w1 + [ReadObject(t)]))
  }

  /** Steps of others between the three calls of a run. */
  predicate WorldOf(w: seq<seq<Action>>, t: nat) {
    |w| == 3 && forall i :: 0 <= i < 3 ==> NotRun(w[i], t)
  }

  /** How far the calls of a report get: the get fails (otherwise than by not finding the
      instance), the update or create does not reach the API server, or both get through. */
  datatype Reach = GetFails | UpdateFails | Through

  /** What one report meets with. */
  datatype Weather = Weather(w: seq<seq<Action>>, reach: Reach)

  /** The calls of one report. */
  function ReportCalls(t: nat, state: ManifestState, weather: Weather): seq<Action>
    requires WorldOf(weather.w, t)
  {
    var w := weather.w;
    match weather.reach
    case GetFails => w[0]
    case UpdateFails => (w[0] + [Get(t)]) + w[1]
    case Through => (w[0] + [Get(t)]) + (w[1] + [AdmitReport(t, state)]) + (w[2] + [CommitReport(t)])
  }

  /** The state that the store call of a report meets. */
  function UpToCommit(md5: string -> string, s: State, t: nat, state: ManifestState, w: seq<seq<Action>>): State
    requires WorldOf(w, t)
  {
    Execute(md5, s, (w[0] + [Get(t)]) + (w[1] + [AdmitReport(t, state)]) + w[2])
  }

  /** The store call meets what the get call met: the same version, or still no instance. */
  predicate FoundAgain(md5: string -> string, s: State, t: nat, state: ManifestState, w: seq<seq<Action>>)
    requires WorldOf(w, t)
  {
    var found, met := Execute(md5, s, w[0]).log, UpToCommit(md5, s, t, state, w).log;
    if Current(found).Some? then Current(met).Some? && |met| == |found| else Current(met).None?
  }

  /** The calls of the reports `from` to `to`. */
  function AllReportCalls(t: nat, reports: seq<ConvergeRun.Snapshot>, weather: seq<Weather>,
                          from: nat, to: nat): seq<Action>
    requires from <= to <= |reports| <= |weather| && forall k :: 0 <= k < |weather| ==> WorldOf(weather[k].w, t)
  {
    if from == to then []
    else AllReportCalls(t, reports, weather, from, to - 1) + ReportCalls(t, reports[to - 1].state, weather[to - 1])
  }

  class Stores {
    const md5: string -> string
    /** The stores; `clis` and `runs` keep how far each process has come. */
    var s: State

    constructor (md5: string -> string)
      ensures this.md5 == md5 && s == Init
    {
      this.md5, s := md5, Init;
    }

    /** The legacy object, `<cluster>/puppet.tar.gz`. */
    method PutLegacyManifest(id: nat, body: string, w: seq<Action>)
      requires id !in s.clis && NotCli(w, id)
      modifies this
      ensures s == Execute(md5, old(s), w + [PutLegacy(id, body)])
      ensures CliOf(s, id).Some? && s.clis[id].LegacyPut? && s.clis[id].content == body
    {
      Then(md5, s, w, PutLegacy(id, body));
      OthersKeepCli(md5, s, w, id);
      s := Execute(md5, s, w);
      s := s.(legacy := s.legacy + [body], clis := s.clis[id := LegacyPut(body, |s.legacy|)]);
    }

    /** The object `<hash>-puppet.tar.gz`. */
    method PutManifest(id: nat, md5Hash: string, body: string, w: seq<Action>)
      requires CliOf(s, id).Some? && s.clis[id].LegacyPut? && s.clis[id].content == body
      requires md5Hash == md5(body) && NotCli(w, id)
      modifies this
      ensures s == Execute(md5, old(s), w + [PutObject(id)])
      ensures CliOf(s, id).Some? && s.clis[id].ObjectPut? && s.clis[id].content == body
    {
      Then(md5, s, w, PutObject(id));
      OthersKeepCli(md5, s, w, id);
      s := Execute(md5, s, w);
      s := s.(objects := s.objects[md5Hash := body], clis := s.clis[id := ObjectPut(body, s.clis[id].l)]);
    }

    /** The pointer, `latest-puppet-hash`. */
    method PutHash(id: nat, md5Hash: string, w: seq<Action>)
      requires CliOf(s, id).Some? && s.clis[id].ObjectPut? && md5Hash == md5(s.clis[id].content) && NotCli(w, id)
      modifies this
      ensures s == Execute(md5, old(s), w + [PutPointer(id)])
      ensures CliOf(s, id).Some? && s.clis[id].Published? && s.clis[id].content == old(s.clis[id].content)
    {
      Then(md5, s, w, PutPointer(id));
      OthersKeepCli(md5, s, w, id);
      s := Execute(md5, s, w);
      var c := s.clis[id];
      s := s.(pointers := s.pointers + [md5Hash], clis := s.clis[id := Published(c.content, c.l, |s.pointers|)]);
    }

    /** `UploadConfiguration`: three writes in order, the reader rewound after the first.
        `failing` is the first call that fails, if any: 0, 2 and 3 are the writes, 1 the rewind. */
    method UploadConfiguration(id: nat, stateFile: Reader, md5Hash: string, w: seq<seq<Action>>, failing: Option<nat>)
      returns (ok: bool, ghost steps: seq<Action>)
      requires id !in s.clis && stateFile.pos == 0 && md5Hash == md5(stateFile.content)
      requires |w| == 3 && forall i :: 0 <= i < 3 ==> NotCli(w[i], id)
      modifies this, stateFile
      ensures s == Execute(md5, old(s), steps)
      ensures var whole := (w[0] + [PutLegacy(id, stateFile.content)]) + (w[1] + [PutObject(id)])
                           + (w[2] + [PutPointer(id)]);
              steps <= whole && (ok ==> steps == whole)
      ensures ok <==> failing !in {Some(0), Some(1), Some(2), Some(3)}
      ensures ok ==> CliOf(s, id).Some? && s.clis[id].Published? && s.clis[id].content == stateFile.content
    {
      ok, steps := false, [];
      if failing == Some(0) { return; }
      var body := stateFile.ReadAll();
      PutLegacyManifest(id, body, w[0]);
      steps := w[0] + [PutLegacy(id, body)];

      if failing == Some(1) { return; }
      stateFile.Rewind();

      if failing == Some(2) { return; }
      body := stateFile.ReadAll();
      PutManifest(id, md5Hash, body, w[1]);
      ExecuteConcat(md5, old(s), steps, w[1] + [PutObject(id)]);
      steps := steps + (w[1] + [PutObject(id)]);

      if failing == Some(3) { return; }
      PutHash(id, md5Hash, w[2]);
      ExecuteConcat(md5, old(s), steps, w[2] + [PutPointer(id)]);
      steps := steps + (w[2] + [PutPointer(id)]);
      ok := true;
    }

    /** `ReapplyConfiguration` on one instance: list, change the listed copy, update.
        `stored` tells whether the update was accepted; a conflict is only logged. `failing` is
        the call that fails outright, if any: 0 the list, 1 the update. */
    method ReapplyConfiguration(id: nat, w: seq<seq<Action>>, failing: Option<nat>)
      returns (stored: bool, ghost steps: seq<Action>)
      requires CliOf(s, id).Some? && s.clis[id].Published?
      requires |w| == 3 && forall i :: 0 <= i < 3 ==> NotCli(w[i], id)
      modifies this
      ensures s == Execute(md5, old(s), steps)
      ensures var whole := (w[0] + [List(id)]) + (w[1] + [AdmitAsk(id)]) + (w[2] + [CommitAsk(id)]);
              steps <= whole && (stored ==> steps == whole)
      ensures CliOf(s, id).Some? && (stored <==> s.clis[id].AskStored?)
      ensures var listed := Execute(md5, old(s), w[0]).log;
              var met := Execute(md5, old(s), (w[0] + [List(id)]) + (w[1] + [AdmitAsk(id)]) + w[2]).log;
              stored <==> failing !in {Some(0), Some(1)}
                          && Current(listed).Some? && Current(met).Some? && |met| == |listed|
    {
      stored, steps := false, [];
      if failing == Some(0) { return; }
      var found := ListInstance(id, w[0]);
      steps := w[0] + [List(id)];
      if !found { return; }
      var instance := new InstanceObject(s.clis[id].copy);
      if instance.spec.None? { instance.spec := Some(Spec(None, None)); }
      instance.spec := Some(instance.spec.value.(converge := Some(0)));
      if failing == Some(1) { return; }
      SendRequest(id, instance, w[1]);
      ExecuteConcat(md5, old(s), steps, w[1] + [AdmitAsk(id)]);
      steps := steps + (w[1] + [AdmitAsk(id)]);
      ExecuteConcat(md5, old(s), steps, w[2]);
      stored := StoreRequest(id, w[2]);
      ExecuteConcat(md5, old(s), steps, w[2] + [CommitAsk(id)]);
      steps := steps + (w[2] + [CommitAsk(id)]);
    }

    method ListInstance(id: nat, w: seq<Action>) returns (found: bool)
      requires CliOf(s, id).Some? && s.clis[id].Published? && NotCli(w, id)
      modifies this
      ensures s == Execute(md5, old(s), w + [List(id)])
      ensures CliOf(s, id).Some? && (if found then s.clis[id].Listed? else s.clis[id].Published?)
      ensures found <==> Current(Execute(md5, old(s), w).log).Some?
      ensures found ==> s.clis[id].version == |Execute(md5, old(s), w).log| - 1
    {
      Then(md5, s, w, List(id));
      OthersKeepCli(md5, s, w, id);
      s := Execute(md5, s, w);
      var c := s.clis[id];
      found := Current(s.log).Some?;
      if found {
        s := s.(clis := s.clis[id := Listed(c.l, c.k, |s.log| - 1, Current(s.log).value)]);
      }
    }

    /** The API server admits the changed copy. */
    method SendRequest(id: nat, instance: InstanceObject, w: seq<Action>)
      requires CliOf(s, id).Some? && s.clis[id].Listed? && NotCli(w, id)
      requires instance.Value() == AskFor(s.clis[id].copy)
      modifies this, instance
      ensures s == Execute(md5, old(s), w + [AdmitAsk(id)])
      ensures CliOf(s, id).Some? && s.clis[id].AskAdmitted?
      ensures s.clis[id].write.base == Some(old(s.clis[id].version))
    {
      Then(md5, s, w, AdmitAsk(id));
      OthersKeepCli(md5, s, w, id);
      s := Execute(md5, s, w);
      var c := s.clis[id];
      instance.AdmitAt(s.now);
      s := s.(clis := s.clis[id := AskAdmitted(c.l, c.k, Write(Some(c.version), instance.Value(), s.now))]);
    }

    /** The API server stores it, if the listed version is still the stored one. */
    method StoreRequest(id: nat, w: seq<Action>) returns (stored: bool)
      requires CliOf(s, id).Some? && s.clis[id].AskAdmitted? && NotCli(w, id)
      modifies this
      ensures s == Execute(md5, old(s), w + [CommitAsk(id)])
      ensures CliOf(s, id).Some? && (stored <==> s.clis[id].AskStored?)
      ensures stored <==> CanCommit(Execute(md5, old(s), w).log, old(s.clis[id].write))
    {
      Then(md5, s, w, CommitAsk(id));
      OthersKeepCli(md5, s, w, id);
      s := Execute(md5, s, w);
      var c := s.clis[id];
      stored := CanCommit(s.log, c.write);
      if stored {
        var entry := Entry(Asked, c.write.stamp, Some(c.write.obj), |s.pointers|, |s.legacy|);
        s := s.(log := s.log + [entry], clis := s.clis[id := AskStored(c.l, c.k, |s.log|)]);
      }
    }

    /* ---------- the agent ---------- */

    /** `GetManifest`: the hash provider, then the legacy object, until one answers.
        `reachable[i]` tells whether call `i` (pointer, object, legacy) gets through. */
    method GetManifest(t: nat, w: seq<seq<Action>>, reachable: seq<bool>)
      returns (manifest: Option<string>, ghost byHash: seq<Action>, ghost legacy: seq<Action>)
      requires RunOf(s, t).Some? && s.runs[t].fetch.NotYet? && |reachable| == 3
      requires |w| == 3 && forall i :: 0 <= i < 3 ==> NotRun(w[i], t)
      modifies this
      ensures s == Execute(md5, old(s), byHash + legacy)
      ensures HashCalls(t, w[0], w[1], reachable[0], reachable[1], byHash)
      ensures legacy == [] || (reachable[2] && legacy == w[2] + [ReadLegacy(t)])
      ensures RunOf(s, t).Some?
      ensures match manifest
              case None =>
                && (s.runs[t].fetch.NotYet? || s.runs[t].fetch.PointerRead?)
                && (!reachable[2] || s.legacy == [])
              case Some(m) =>
                && (if legacy == [] then s.runs[t].fetch.HashFetched? else s.runs[t].fetch.LegacyFetched?)
                && s.runs[t].fetch.content == m
    {
      manifest, byHash, legacy := None, [], [];
      var provider := 0;
      while provider < 2 && manifest.None?
        invariant provider <= 2
        invariant s == Execute(md5, old(s), byHash + legacy) && RunOf(s, t).Some?
        invariant provider == 0 ==> s == old(s) && manifest.None? && byHash == []
        invariant provider > 0 ==> HashCalls(t, w[0], w[1], reachable[0], reachable[1], byHash)
        invariant provider < 2 ==> legacy == []
        invariant legacy == [] || (reachable[2] && legacy == w[2] + [ReadLegacy(t)])
        invariant manifest.None? ==> s.runs[t].fetch.NotYet? || s.runs[t].fetch.PointerRead?
        invariant provider == 2 && manifest.None? ==> !reachable[2] || s.legacy == []
        invariant manifest.Some? ==>
          && (if legacy == [] then s.runs[t].fetch.HashFetched? else s.runs[t].fetch.LegacyFetched?)
          && s.runs[t].fetch.content == manifest.value
        decreases 2 - provider
      {
        if provider == 0 {
          manifest, byHash := GetByHash(t, w[0], w[1], reachable[0], reachable[1]);
          assert byHash + legacy == byHash;
        } else {
          assert byHash + legacy == byHash;
          manifest, legacy := GetLegacy(t, w[2], reachable[2]);
          ExecuteConcat(md5, old(s), byHash, legacy);
        }
        provider := provider + 1;
      }
    }

    /** The hash provider: the pointer, then the object it names. */
    method GetByHash(t: nat, w0: seq<Action>, w1: seq<Action>, pointer: bool, object_: bool)
      returns (manifest: Option<string>, ghost steps: seq<Action>)
      requires RunOf(s, t).Some? && s.runs[t].fetch.NotYet? && NotRun(w0, t) && NotRun(w1, t)
      modifies this
      ensures s == Execute(md5, old(s), steps)
      ensures HashCalls(t, w0, w1, pointer, object_, steps)
      ensures Inv(md5, old(s)) && pointer && object_ && Execute(md5, old(s), w0).pointers != [] ==> manifest.Some?
      ensures RunOf(s, t).Some?
      ensures match manifest
              case None => s.runs[t].fetch.NotYet? || s.runs[t].fetch.PointerRead?
              case Some(m) => s.runs[t].fetch.HashFetched? && s.runs[t].fetch.content == m
    {
      manifest, steps := None, [];
      if !pointer { return; }
      if Inv(md5, s) { ExecuteKeeps(md5, s, w0 + [ReadPointer(t)]); }
      var key := ReadHash(t, w0);
      steps := w0 + [ReadPointer(t)];
      if key.None? || !object_ { return; }
      manifest := ReadManifest(t, key.value, w1);
      ExecuteConcat(md5, old(s), steps, w1 + [ReadObject(t)]);
      steps := steps + (w1 + [ReadObject(t)]);
    }

    method ReadHash(t: nat, w: seq<Action>) returns (key: Option<string>)
      requires RunOf(s, t).Some? && s.runs[t].fetch.NotYet? && NotRun(w, t)
      modifies this
      ensures s == Execute(md5, old(s), w + [ReadPointer(t)])
      ensures RunOf(s, t).Some?
      ensures key.None? <==> Execute(md5, old(s), w).pointers == []
      ensures key.None? ==> s.runs[t].fetch.NotYet?
      ensures key.Some? ==> s.runs[t].fetch.PointerRead? && s.runs[t].fetch.k < |s.pointers|
                            && s.pointers[s.runs[t].fetch.k] == key.value
    {
      Then(md5, s, w, ReadPointer(t));
      OthersKeepRun(md5, s, w, t);
      s := Execute(md5, s, w);
      key := None;
      if s.pointers != [] {
        key := Some(s.pointers[|s.pointers| - 1]);
        s := s.(runs := s.runs[t := s.runs[t].(fetch := PointerRead(|s.pointers| - 1))]);
      }
    }

    method ReadManifest(t: nat, key: string, w: seq<Action>) returns (manifest: Option<string>)
      requires RunOf(s, t).Some? && s.runs[t].fetch.PointerRead? && NotRun(w, t)
      requires s.runs[t].fetch.k < |s.pointers| && s.pointers[s.runs[t].fetch.k] == key
      modifies this
      ensures s == Execute(md5, old(s), w + [ReadObject(t)])
      ensures Inv(md5, old(s)) ==> manifest.Some?
      ensures RunOf(s, t).Some?
      ensures match manifest
              case None => s.runs[t].fetch.PointerRead?
              case Some(m) => s.runs[t].fetch.HashFetched? && s.runs[t].fetch.content == m
    {
      Then(md5, s, w, ReadObject(t));
      OthersKeepRun(md5, s, w, t);
      PointersStay(md5, s, w);
      if Inv(md5, s) { ExecuteKeeps(md5, s, w); }
      s := Execute(md5, s, w);
      manifest := None;
      if key in s.objects {
        manifest := Some(s.objects[key]);
        s := s.(runs := s.runs[t := s.runs[t].(fetch := HashFetched(s.runs[t].fetch.k, s.objects[key]))]);
      }
    }

    method GetLegacy(t: nat, w: seq<Action>, reachable: bool)
      returns (manifest: Option<string>, ghost steps: seq<Action>)
      requires RunOf(s, t).Some? && (s.runs[t].fetch.NotYet? || s.runs[t].fetch.PointerRead?) && NotRun(w, t)
      modifies this
      ensures s == Execute(md5, old(s), steps)
      ensures RunOf(s, t).Some?
      ensures steps == if reachable then w + [ReadLegacy(t)] else []
      ensures match manifest
              case None => s.runs[t].fetch == old(s.runs[t].fetch) && (!reachable || s.legacy == [])
              case Some(m) => s.runs[t].fetch.LegacyFetched? && s.runs[t].fetch.content == m
    {
      manifest, steps := None, [];
      if !reachable { return; }
      steps := w + [ReadLegacy(t)];
      Then(md5, s, w, ReadLegacy(t));
      OthersKeepRun(md5, s, w, t);
      s := Execute(md5, s, w);
      if s.legacy != [] {
        manifest := Some(s.legacy[|s.legacy| - 1]);
        s := s.(runs := s.runs[t := s.runs[t].(fetch := LegacyFetched(|s.legacy| - 1, s.legacy[|s.legacy| - 1]))]);
      }
    }

    /** `reportStatus`: get, put a copy of the status into the object, update it; or create
        it, if there is none. */
    method ReportStatus(t: nat, state: ManifestState, weather: Weather) returns (stored: bool, ghost steps: seq<Action>)
      requires RunOf(s, t).Some? && WorldOf(weather.w, t)
      modifies this
      ensures s == Execute(md5, old(s), steps)
      ensures steps == ReportCalls(t, state, weather)
      ensures RunOf(s, t).Some? && s.runs[t].fetch == old(s.runs[t].fetch)
      ensures stored <==> weather.reach.Through? && FoundAgain(md5, old(s), t, state, weather.w)
      ensures stored ==>
                Says(Current(s.log), state, Execute(md5, old(s), (weather.w[0] + [Get(t)]) + weather.w[1]).now)
    {
      var w := weather.w;
      stored, steps := false, w[0];
      if weather.reach.GetFails? {
        OthersKeepRun(md5, s, w[0], t);
        s := Execute(md5, s, w[0]);
        return;
      }
      GetInstance(t, w[0]);
      steps := w[0] + [Get(t)];
      var got := s.runs[t].report;
      var instance := new InstanceObject(if got.Got? then got.copy else Instance(None, None));
      instance.status := Some(Status(Some(Report(state, 0)), None));
      if weather.reach.UpdateFails? {
        OthersKeepRun(md5, s, w[1], t);
        ExecuteConcat(md5, old(s), steps, w[1]);
        s, steps := Execute(md5, s, w[1]), steps + w[1];
        return;
      }
      ExecuteConcat(md5, old(s), steps, w[1]);
      SendReport(t, state, instance, w[1]);
      ExecuteConcat(md5, old(s), steps, w[1] + [AdmitReport(t, state)]);
      steps := steps + (w[1] + [AdmitReport(t, state)]);
      ExecuteConcat(md5, old(s), steps, w[2]);
      stored := StoreStatus(t, w[2]);
      ExecuteConcat(md5, old(s), steps, w[2] + [CommitReport(t)]);
      steps := steps + (w[2] + [CommitReport(t)]);
    }

    method GetInstance(t: nat, w: seq<Action>)
      requires RunOf(s, t).Some? && NotRun(w, t)
      modifies this
      ensures s == Execute(md5, old(s), w + [Get(t)])
      ensures HasLooked(s, t)
      ensures var log := Execute(md5, old(s), w).log;
              && (s.runs[t].report.Got? <==> Current(log).Some?)
              && (s.runs[t].report.Got? ==> s.runs[t].report.version == |log| - 1)
      ensures s.runs[t].fetch == old(s.runs[t].fetch)
    {
      Then(md5, s, w, Get(t));
      OthersKeepRun(md5, s, w, t);
      s := Execute(md5, s, w);
      if Current(s.log).Some? {
        s := s.(runs := s.runs[t := s.runs[t].(report := Got(|s.log| - 1, Current(s.log).value))]);
      } else {
        s := s.(runs := s.runs[t := s.runs[t].(report := GotNone)]);
      }
    }

    method SendReport(t: nat, state: ManifestState, instance: InstanceObject, w: seq<Action>)
      requires HasLooked(s, t) && NotRun(w, t)
      requires var copy := if s.runs[t].report.Got? then s.runs[t].report.copy else Instance(None, None);
               instance.Value() == ReportOn(copy, state)
      modifies this, instance
      ensures s == Execute(md5, old(s), w + [AdmitReport(t, state)])
      ensures RunOf(s, t).Some? && s.runs[t].report.ReportAdmitted? && s.runs[t].fetch == old(s.runs[t].fetch)
      ensures forall log :: CanCommit(log, s.runs[t].report.write) <==> StillAsFound(old(s.runs[t].report), log)
      ensures Says(Some(s.runs[t].report.write.obj), state, Execute(md5, old(s), w).now)
    {
      Then(md5, s, w, AdmitReport(t, state));
      OthersKeepRun(md5, s, w, t);
      s := Execute(md5, s, w);
      AdmitsAsGiven(md5, s, t, state);
      instance.AdmitAt(s.now);
      var base := if s.runs[t].report.Got? then Some(s.runs[t].report.version) else None;
      s := s.(runs := s.runs[t := s.runs[t].(report := ReportAdmitted(Write(base, instance.Value(), s.now)))]);
    }

    method StoreStatus(t: nat, w: seq<Action>) returns (stored: bool)
      requires RunOf(s, t).Some? && s.runs[t].report.ReportAdmitted? && NotRun(w, t)
      modifies this
      ensures s == Execute(md5, old(s), w + [CommitReport(t)])
      ensures RunOf(s, t).Some? && s.runs[t].report.Idle? && s.runs[t].fetch == old(s.runs[t].fetch)
      ensures stored <==> CanCommit(Execute(md5, old(s), w).log, old(s.runs[t].report.write))
      ensures stored ==> Current(s.log) == Some(old(s.runs[t].report.write.obj))
    {
      Then(md5, s, w, CommitReport(t));
      OthersKeepRun(md5, s, w, t);
      s := Execute(md5, s, w);
      var write := s.runs[t].report.write;
      stored := CanCommit(s.log, write);
      if stored {
        var op := if write.base.Some? then Reported else Created;
        s := s.(log := s.log + [Entry(op, write.stamp, Some(write.obj), |s.pointers|, |s.legacy|)]);
      }
      s := s.(runs := s.runs[t := s.runs[t].(report := Idle)]);
    }

    /** `converge`: the first report, the fetch, then the reports of the attempts. `unpacked`
        is what hashing and unpacking a fetched manifest comes to. */
    method Converge(t: nat, attempts: seq<ConvergeRun.Attempt>, unpacked: ConvergeRun.Setup, noManifest: string,
                    weather: seq<Weather>, fetching: seq<seq<Action>>, reachable: seq<bool>)
      returns (setup: ConvergeRun.Setup, stored: bool, ghost fetch: seq<Action>, ghost steps: seq<Action>)
      requires RunOf(s, t).Some? && s.runs[t].fetch.NotYet? && attempts != []
      requires |weather| == |attempts| + 2 && forall k :: 0 <= k < |weather| ==> WorldOf(weather[k].w, t)
      requires WorldOf(fetching, t) && |reachable| == 3
      modifies this
      ensures s == Execute(md5, old(s), steps)
      ensures var reports := ConvergeRun.Reports(setup, attempts);
              && 2 <= |reports| <= |weather|
              && steps == ReportCalls(t, Converging, weather[0]) + fetch
                          + AllReportCalls(t, reports, weather, 1, |reports|)
      ensures exists byHash, legacy ::
                && fetch == byHash + legacy
                && HashCalls(t, fetching[0], fetching[1], reachable[0], reachable[1], byHash)
                && (legacy == [] || legacy == fetching[2] + [ReadLegacy(t)])
      ensures RunOf(s, t).Some?
      ensures setup == if s.runs[t].fetch.HashFetched? || s.runs[t].fetch.LegacyFetched? then unpacked
                       else ConvergeRun.Failed(noManifest)
      // a last report that is stored says Error exactly when the set-up failed
      ensures stored ==> Shows(Current(s.log), if setup.Failed? then Error else Converged)
      ensures stored ==> (LooksConverged(Listing(s)) <==> setup.Ready?)
    {
      stored, steps := ReportStatus(t, Converging, weather[0]);
      var manifest;
      ghost var byHash, legacy;
      manifest, byHash, legacy := GetManifest(t, fetching, reachable);
      fetch := byHash + legacy;
      ExecuteConcat(md5, old(s), steps, fetch);
      steps := steps + fetch;
      setup := if manifest.Some? then unpacked else ConvergeRun.Failed(noManifest);
      ConvergeRun.MadeIsPrefix(attempts);
      ConvergeRun.History(setup, attempts);
      ghost var more;
      stored, more := SendReports(t, ConvergeRun.Reports(setup, attempts), weather);
      if stored { OneListed(Current(s.log).value); }
      ExecuteConcat(md5, old(s), steps, more);
      steps := steps + more;
    }

    /** All reports after the first; `stored` tells whether the last of them was stored. */
    method SendReports(t: nat, reports: seq<ConvergeRun.Snapshot>, weather: seq<Weather>)
      returns (stored: bool, ghost steps: seq<Action>)
      requires RunOf(s, t).Some? && 2 <= |reports| <= |weather|
      requires forall k :: 0 <= k < |weather| ==> WorldOf(weather[k].w, t)
      modifies this
      ensures s == Execute(md5, old(s), steps) && steps == AllReportCalls(t, reports, weather, 1, |reports|)
      ensures RunOf(s, t).Some? && s.runs[t].fetch == old(s.runs[t].fetch)
      ensures stored ==> Shows(Current(s.log), reports[|reports| - 1].state)
    {
      stored, steps := false, [];
      for k := 1 to |reports|
        invariant s == Execute(md5, old(s), steps) && steps == AllReportCalls(t, reports, weather, 1, k)
        invariant RunOf(s, t).Some? && s.runs[t].fetch == old(s.runs[t].fetch)
        invariant stored ==> Shows(Current(s.log), reports[k - 1].state)
      {
        assert WorldOf(weather[k].w, t);
        ghost var more;
        stored, more := ReportStatus(t, reports[k].state, weather[k]);
        ExecuteConcat(md5, old(s), steps, more);
        steps := steps + more;
      }
    }

    /** `syncToStdout` up to the call of `converge`, on the cached instance. */
    method Sync(t: nat, w: seq<Action>) returns (converge: bool)
      requires t !in s.runs && NotRun(w, t)
      requires Inv(md5, s)
      modifies this
      ensures s == Execute(md5, old(s), w + [Decide(t)])
      ensures converge <==> RunOf(s, t).Some? && s.runs[t].cause.Some?
    {
      Then(md5, s, w, Decide(t));
      OthersKeepRun(md5, s, w, t);
      ExecuteKeeps(md5, s, w);
      s := Execute(md5, s, w);
      converge := false;
      if s.seen == 0 || s.log[s.seen - 1].obj.None? {
        s := s.(runs := s.runs[t := Run(None, NotYet, GotNone)], syncs := s.syncs + [WingProtocol.Sync(s.seen, None)]);
        return;
      }
      var instance := s.log[s.seen - 1].obj.value;
      if instance.spec.Some? && instance.spec.value.converge.Some? && instance.spec.value.converge.value != 0 {
        var status := instance.status;
        if status.Some? && status.value.converge.Some? && status.value.converge.value.stamp != 0 {
          converge := !(status.value.converge.value.stamp > instance.spec.value.converge.value);
        }
      }
      if converge {
        var r := LastAsk(s.log, s.seen - 1);
        s := s.(runs := s.runs[t := Run(Some(r), NotYet, Idle)],
                syncs := s.syncs + [WingProtocol.Sync(s.seen, Some(r))]);
      } else {
        s := s.(syncs := s.syncs + [WingProtocol.Sync(s.seen, None)]);
      }
    }
  }
}
