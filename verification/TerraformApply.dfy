/** `terraform apply` under tarmak: plan, inspect, approve, apply. */
module TerraformApply {
  import opened Text

  /* ---------- plans ---------- */

  datatype Change = NoChange | Create | Update | Destroy | DestroyCreate

  /** The changes of one module, by resource key such as `aws_ebs_volume.data`. */
  datatype ModuleDiff = ModuleDiff(path: seq<string>, resources: map<string, Change>)

  type Plan = seq<ModuleDiff>

  /** `strings.Split(key, ".")[0]`. */
  function FirstPart(key: string): string {
    if key == "" || key[0] == '.' then "" else [key[0]] + FirstPart(key[1..])
  }

  /** The test of the code. */
  predicate DestroysVolume(key: string, change: Change) {
    (change.Destroy? || change.DestroyCreate?) && FirstPart(key) == VOLUME
  }

  const VOLUME := "aws_ebs" + "_volume"

  /** Applying the change destroys an EBS volume: it is of that type by the text of its key,
      and it is destroyed or replaced. */
  predicate LosesVolume(key: string, change: Change) {
    (key == VOLUME || VOLUME + "." <= key) && (change == Destroy || change == DestroyCreate)
  }

  lemma {:induction false} FirstPartExactly(a: string, key: string)
    requires '.' !in a
    ensures FirstPart(key) == a <==> key == a || a + "." <= key
  {
    if key == "" {
    } else if a == "" || key[0] == '.' {
      assert a != "" ==> (a + ".")[0] == a[0];
    } else {
      FirstPartExactly(a[1..], key[1..]);
      assert a == [a[0]] + a[1..] && key == [key[0]] + key[1..];
      assert a + "." == [a[0]] + (a[1..] + ".");
      assert FirstPart(key)[1..] == FirstPart(key[1..]);
      StartsWith(a[1..] + ".", key[1..], a[0], key[0]);
    }
  }

  lemma StartsWith(a: string, b: string, x: char, y: char)
    ensures [x] + a <= [y] + b <==> x == y && a <= b
  {
    if [x] + a <= [y] + b {
      assert ([x] + a)[0] == ([y] + b)[0];
      assert a == ([x] + a)[1..] && b == ([y] + b)[1..];
    }
  }

  /** The test finds exactly the volumes that are lost. */
  lemma DestroysExactly(key: string, change: Change)
    ensures DestroysVolume(key, change) <==> LosesVolume(key, change)
  {
    var type_ := VOLUME;
    assert '.' !in type_;
    FirstPartExactly(type_, key);
  }

  /** The volume's address: below the root, the modules on the way to it come first. */
  function VolumeName(path: seq<string>, key: string): (name: string)
    ensures HasSuffix(name, key) && (|path| <= 1 <==> name == key)
  {
    if |path| <= 1 then key
    else
      SuffixOfConcat("module." + Join(path[1..], ".") + ".", key);
      "module." + Join(path[1..], ".") + "." + key
  }

  /** The modules of a path, each followed by a dot. */
  function Dotted(modules: seq<string>): string {
    if modules == [] then "" else modules[0] + "." + Dotted(modules[1..])
  }

  /** The address is the key, after `module.` and the modules below the root, if any. */
  lemma VolumeNameExactly(root: string, modules: seq<string>, key: string)
    ensures VolumeName([], key) == key
    ensures VolumeName([root] + modules, key) == (if modules == [] then "" else "module." + Dotted(modules)) + key
  {
    assert ([root] + modules)[1..] == modules;
    if modules != [] {
      JoinDotted(modules);
      var joined := Join(modules, ".");
      assert "module." + joined + "." + key == "module." + (joined + ".") + key;
    }
  }

  lemma {:induction false} JoinDotted(modules: seq<string>)
    requires modules != []
    ensures Join(modules, ".") + "." == Dotted(modules)
  {
    if |modules| == 1 {
      assert modules[1..] == [] && Dotted(modules) == modules[0] + "." + "";
    } else {
      JoinDotted(modules[1..]);
      var rest := Join(modules[1..], ".");
      assert modules[0] + "." + rest + "." == modules[0] + "." + (rest + ".");
    }
  }

  /** Applying the plan destroys some EBS volume. */
  ghost predicate DestroysSome(plan: Plan) {
    exists m, key :: m in plan && key in m.resources && LosesVolume(key, m.resources[key])
  }

  lemma DestroysSomeExactly(plan: Plan)
    ensures DestroysSome(plan) <==> Destroyed(plan) != {}
  {
    if DestroysSome(plan) {
      var m, key :| m in plan && key in m.resources && LosesVolume(key, m.resources[key]);
      assert VolumeName(m.path, key) in Destroyed(plan);
    }
    if Destroyed(plan) != {} { var name :| name in Destroyed(plan); }
  }

  /** The EBS volumes that applying a plan destroys. */
  function Destroyed(plan: Plan): set<string> {
    set m, key | m in plan && key in m.resources && LosesVolume(key, m.resources[key]) :: VolumeName(m.path, key)
  }

  /** `IsDestroyingEBSVolume`, visiting the resources of a module in an arbitrary order. */
  method IsDestroyingEBSVolume(plan: Plan) returns (isDestroyed: bool, names: seq<string>)
    ensures isDestroyed <==> DestroysSome(plan)
    ensures isDestroyed <==> Destroyed(plan) != {}
    ensures forall name :: name in names <==> name in Destroyed(plan)
  {
    isDestroyed, names := false, [];
    for n := 0 to |plan|
      invariant isDestroyed <==> names != []
      invariant forall name :: name in names <==> name in Destroyed(plan[..n])
    {
      var module_ := plan[n];
      assert plan[..n + 1] == plan[..n] + [module_];
      var left := module_.resources.Keys;
      while left != {}
        invariant left <= module_.resources.Keys
        invariant isDestroyed <==> names != []
        invariant forall name :: name in names <==>
                    || name in Destroyed(plan[..n])
                    || exists key :: key in module_.resources && key !in left && Names(module_, key, name)
        decreases |left|
      {
        var key :| key in left;
        left := left - {key};
        DestroysExactly(key, module_.resources[key]);
        if DestroysVolume(key, module_.resources[key]) {
          var name := VolumeName(module_.path, key);
          assert Names(module_, key, name);
          names := names + [name];
          isDestroyed := true;
        }
      }
      DestroyedOneMore(plan[..n], module_);
    }
    assert plan[..|plan|] == plan;
    if names != [] { assert names[0] in names; }
    DestroysSomeExactly(plan);
  }

  predicate Names(m: ModuleDiff, key: string, name: string)
    requires key in m.resources
  {
    LosesVolume(key, m.resources[key]) && name == VolumeName(m.path, key)
  }

  lemma DestroyedOneMore(plan: Plan, m: ModuleDiff)
    ensures forall name :: name in Destroyed(plan + [m]) <==>
              name in Destroyed(plan) || exists key :: key in m.resources && Names(m, key, name)
  {
    forall name
      ensures name in Destroyed(plan + [m]) <==>
                name in Destroyed(plan) || exists key :: key in m.resources && Names(m, key, name)
    {
      if key :| key in m.resources && Names(m, key, name) { assert m in plan + [m]; }
    }
  }

  /* ---------- the surroundings ---------- */

  const PLACEHOLDER := "${TARMAK_CONFIG}" + "/${CURRENT_CLUSTER}/terraform/tarmak.plan"

  /** Flags and path resolution. `cwd` gives the file tarmak opens for a path, `code` the file
      that terraform, which runs in the cluster's code directory, opens for it; `expand`
      replaces the home directory and makes a path absolute. */
  datatype Config = Config(
    planFileStore: string,
    planFileLocation: string,
    autoApprove: bool,
    autoApproveDeletingData: bool,
    defaultPath: string,
    cwd: string -> string,
    code: string -> string,
    expand: string -> Option<string>)

  datatype Exit = NoChanges | ChangesNeeded | Failed

  /** One `terraform plan`: what it writes, if anything, and how it exits. */
  datatype PlanRun = PlanRun(written: Option<Plan>, exit: Exit)

  /** Everything the environment decides during one apply. */
  datatype World = World(first: PlanRun, updatesPuppet: bool, taintOk: bool, second: PlanRun, answer: Option<bool>,
                         cancelled: bool)

  type Files = map<string, Plan>

  predicate Auto(cfg: Config) {
    cfg.autoApprove && cfg.autoApproveDeletingData
  }

  predicate CustomPlan(cfg: Config) {
    cfg.planFileLocation != PLACEHOLDER
  }

  function StorePath(cfg: Config): Option<string> {
    if cfg.planFileStore == PLACEHOLDER then Some(cfg.defaultPath) else cfg.expand(cfg.planFileStore)
  }

  function LocationPath(cfg: Config): Option<string> {
    if cfg.planFileLocation == PLACEHOLDER then Some(cfg.defaultPath) else cfg.expand(cfg.planFileLocation)
  }

  /** The path whose plan an apply inspects; a custom one is used as it was given. */
  function InspectedPath(cfg: Config): Option<string> {
    if CustomPlan(cfg) then Some(cfg.planFileLocation) else StorePath(cfg)
  }

  /* ---------- what Plan and Apply do ---------- */

  datatype Planned = Planned(files: Files, changes: bool, ok: bool, plan: Plan, asked: Option<set<string>>)

  /** `planWrapper`. */
  function RunPlan(cfg: Config, files: Files, path: string, run: PlanRun): Planned {
    var files' := if run.written.Some? then files[cfg.code(path) := run.written.value] else files;
    if run.exit.Failed? then Planned(files', false, false, [], None)
    else if cfg.cwd(path) !in files' then Planned(files', run.exit.ChangesNeeded?, false, [], None)
    else Planned(files', run.exit.ChangesNeeded?, true, files'[cfg.cwd(path)], None)
  }

  /** The first half of `Plan`: which path, and what was read from it. */
  function FirstPlan(cfg: Config, files: Files, preApply: bool, w: World): Planned {
    if !preApply || !CustomPlan(cfg) then
      if StorePath(cfg).None? then Planned(files, true, false, [], None)
      else RunPlan(cfg, files, StorePath(cfg).value, w.first)
    else if cfg.cwd(cfg.planFileLocation) !in files then Planned(files, true, false, [], None)
    else Planned(files, true, true, files[cfg.cwd(cfg.planFileLocation)], None)
  }

  /** The taint-and-replan branch. */
  function SecondPlan(cfg: Config, path: string, p: Planned, w: World): Planned
    requires p.ok
  {
    if !w.updatesPuppet then p
    else if !w.taintOk then p.(ok := false)
    else RunPlan(cfg, p.files, path, w.second)
  }

  function Approve(cfg: Config, preApply: bool, p: Planned, w: World): Planned
    requires p.ok
  {
    if Destroyed(p.plan) == {} then p
    else if !preApply then p.(ok := false)
    else if Auto(cfg) then p
    else p.(asked := Some(Destroyed(p.plan)), ok := w.answer == Some(true))
  }

  function PlanSpec(cfg: Config, files: Files, preApply: bool, w: World): Planned {
    var p := FirstPlan(cfg, files, preApply, w);
    if !p.ok then p
    else
      var path := if !preApply || !CustomPlan(cfg) then StorePath(cfg).value else cfg.planFileLocation;
      var p := SecondPlan(cfg, path, p, w);
      if !p.ok then p else Approve(cfg, preApply, p, w)
  }

  datatype Applied = Applied(planned: Planned, ok: bool, plan: Option<Plan>)

  /** `plan` is what terraform was told to apply, if it got that far. */
  function ApplySpec(cfg: Config, files: Files, w: World): Applied {
    var p := PlanSpec(cfg, files, true, w);
    if !p.ok || !p.changes then Applied(p, p.ok, None)
    else if w.cancelled || LocationPath(cfg).None? then Applied(p, false, None)
    else
      var file := cfg.code(LocationPath(cfg).value);
      if file in p.files then Applied(p, true, Some(p.files[file])) else Applied(p, false, None)
  }

  class Terraform {
    const cfg: Config
    var files: Files

    constructor (cfg: Config, files: Files)
      ensures this.cfg == cfg && this.files == files
    {
      this.cfg, this.files := cfg, files;
    }

    method PlanWrapper(path: string, run: PlanRun) returns (changes: bool, ok: bool, tfPlan: Plan)
      modifies this`files
      ensures Planned(files, changes, ok, tfPlan, None) == RunPlan(cfg, old(files), path, run)
    {
      if run.written.Some? { files := files[cfg.code(path) := run.written.value]; }
      changes := run.exit.ChangesNeeded?;
      if run.exit.Failed? { return false, false, []; }
      if cfg.cwd(path) !in files { return changes, false, []; }
      return changes, true, files[cfg.cwd(path)];
    }

    method Plan(preApply: bool, w: World)
      returns (changesNeeded: bool, ok: bool, tfPlan: Plan, asked: Option<set<string>>)
      modifies this`files
      ensures Planned(files, changesNeeded, ok, tfPlan, asked) == PlanSpec(cfg, old(files), preApply, w)
    {
      var planPath := cfg.planFileLocation;
      changesNeeded, ok, tfPlan, asked := true, true, [], None;
      var customPlanFile := planPath != PLACEHOLDER;
      if !preApply || !customPlanFile {
        var store := StorePath(cfg);
        if store.None? { return true, false, [], None; }
        planPath := store.value;
        changesNeeded, ok, tfPlan := PlanWrapper(planPath, w.first);
        if !ok { return; }
      } else {
        if cfg.cwd(planPath) !in files { return true, false, [], None; }
        tfPlan := files[cfg.cwd(planPath)];
      }
      if w.updatesPuppet {
        if !w.taintOk { ok := false; return; }
        changesNeeded, ok, tfPlan := PlanWrapper(planPath, w.second);
        if !ok { return; }
      }
      var destroying, volumes := IsDestroyingEBSVolume(tfPlan);
      if !destroying { return; }
      if !preApply { ok := false; return; }
      if cfg.autoApproveDeletingData && cfg.autoApprove { return; }
      asked := Some(set v | v in volumes);
      assert asked.value == Destroyed(tfPlan);
      ok := w.answer == Some(true);
    }

    method Apply(w: World) returns (ok: bool, applied: Option<Plan>, ghost planned: Planned)
      modifies this`files
      ensures Applied(planned, ok, applied) == ApplySpec(cfg, old(files), w)
    {
      var changesNeeded, planOk, tfPlan, asked := Plan(true, w);
      planned := Planned(files, changesNeeded, planOk, tfPlan, asked);
      applied := None;
      if !planOk || !changesNeeded { return planOk, None, planned; }
      if w.cancelled { return false, None, planned; }
      var path := LocationPath(cfg);
      if path.None? { return false, None, planned; }
      if cfg.code(path.value) !in files { return false, None, planned; }
      return true, Some(files[cfg.code(path.value)]), planned;
    }
  }

  /* ---------- safety ---------- */

  /** The plan may be applied: it destroys no volume, or destroying data was approved by both
      flags or by a yes to a question that named exactly its volumes. */
  ghost predicate Cleared(cfg: Config, w: World, planned: Planned, plan: Plan) {
    || !DestroysSome(plan)
    || (cfg.autoApprove && cfg.autoApproveDeletingData)
    || (planned.asked == Some(Destroyed(plan)) && w.answer == Some(true))
  }

  /** The file inspected is the file applied. */
  predicate SameFile(cfg: Config) {
    && InspectedPath(cfg).Some? && LocationPath(cfg).Some?
    && cfg.cwd(InspectedPath(cfg).value) == cfg.code(LocationPath(cfg).value)
  }

  /** When inspected and applied path are the same file, then in every run what is applied is
      exactly what was inspected last, after its last write, and it was cleared. */
  lemma AppliesOnlyWhatWasCleared(cfg: Config, files: Files, w: World)
    requires SameFile(cfg)
    ensures var r := ApplySpec(cfg, files, w);
            r.plan.Some? ==> r.plan.value == r.planned.plan && Cleared(cfg, w, r.planned, r.plan.value)
  {
    DestroysSomeExactly(ApplySpec(cfg, files, w).planned.plan);
  }

  ghost predicate AlwaysCleared(cfg: Config) {
    forall files, w :: ClearedRun(cfg, files, w)
  }

  ghost predicate ClearedRun(cfg: Config, files: Files, w: World) {
    var r := ApplySpec(cfg, files, w);
    r.plan.Some? ==> Cleared(cfg, w, r.planned, r.plan.value)
  }

  /** Some plan destroys a volume. */
  lemma HarmfulPlan() returns (plan: Plan)
    ensures DestroysSome(plan)
  {
    var m := ModuleDiff(["root"], map[VOLUME := Destroy]);
    plan := [m];
    assert m in plan && VOLUME in m.resources && LosesVolume(VOLUME, m.resources[VOLUME]);
  }

  /** A run that inspects a harmless plan and applies a harmful one left in another file. */
  lemma OtherFileSlipsThrough(cfg: Config, harmless: Plan, harmful: Plan)
    requires !SameFile(cfg) && InspectedPath(cfg).Some? && LocationPath(cfg).Some?
    requires !(cfg.autoApprove && cfg.autoApproveDeletingData) && !DestroysSome(harmless) && DestroysSome(harmful)
    ensures !AlwaysCleared(cfg)
  {
    var inspected, applied := InspectedPath(cfg).value, LocationPath(cfg).value;
    var files: Files := map[cfg.cwd(inspected) := harmless, cfg.code(applied) := harmful];
    var written := if cfg.code(inspected) == cfg.cwd(inspected) then harmless else harmful;
    var w := World(PlanRun(Some(written), ChangesNeeded), false, true, PlanRun(None, Failed), None, false);
    var p := FirstPlan(cfg, files, true, w);
    DestroysSomeExactly(harmless);
    assert p.ok && p.changes && p.plan == harmless && p.files[cfg.code(applied)] == harmful;
    assert PlanSpec(cfg, files, true, w) == p;
    assert ApplySpec(cfg, files, w).plan == Some(harmful);
    assert !ClearedRun(cfg, files, w);
  }

  /** Exactly when apply is safe: no run ever applies a plan that was not cleared if and only
      if the inspected path and the applied path are the same file, or both approval flags are
      set, or one of the paths does not resolve and so nothing is ever applied. */
  lemma SafeExactly(cfg: Config)
    ensures AlwaysCleared(cfg) <==>
              || SameFile(cfg) || (cfg.autoApprove && cfg.autoApproveDeletingData)
              || InspectedPath(cfg).None? || LocationPath(cfg).None?
  {
    if SameFile(cfg) || Auto(cfg) || InspectedPath(cfg).None? || LocationPath(cfg).None? {
      forall files, w ensures ClearedRun(cfg, files, w) {
        if SameFile(cfg) { AppliesOnlyWhatWasCleared(cfg, files, w); }
      }
    } else {
      var harmful := HarmfulPlan();
      OtherFileSlipsThrough(cfg, [], harmful);
    }
  }

  /* ---------- what is applied ---------- */

  /** The plan in a file once a run has written to it, or not. */
  function OnFile(before: Option<Plan>, run: PlanRun): Option<Plan> {
    if run.written.Some? then run.written else before
  }

  /** The plan in the file that is planned into, before and after the replanning. */
  function FirstOnFile(files: Files, file: string, custom: bool, w: World): Option<Plan> {
    var start := if file in files then Some(files[file]) else None;
    if custom then start else OnFile(start, w.first)
  }

  function LastOnFile(files: Files, file: string, custom: bool, w: World): Option<Plan> {
    var first := FirstOnFile(files, file, custom, w);
    if w.updatesPuppet then OnFile(first, w.second) else first
  }

  /** No planning run fails, and there is a plan to read after each. */
  predicate Plans(files: Files, file: string, custom: bool, w: World) {
    && FirstOnFile(files, file, custom, w).Some? && (custom || w.first.exit != Failed)
    && (w.updatesPuppet ==> w.taintOk && w.second.exit != Failed)
  }

  /** Plans are written to, read and applied from one file. */
  predicate OneFile(cfg: Config, file: string) {
    && InspectedPath(cfg).Some? && LocationPath(cfg).Some?
    && cfg.code(InspectedPath(cfg).value) == cfg.cwd(InspectedPath(cfg).value) == file
    && cfg.code(LocationPath(cfg).value) == file
  }

  /** The last planning run found changes; a given plan file is taken to have some. */
  predicate FindsChanges(custom: bool, w: World) {
    if w.updatesPuppet then w.second.exit == ChangesNeeded else custom || w.first.exit == ChangesNeeded
  }

  /** Planning works, and losing a volume is approved by both flags or by the answer. */
  ghost predicate Approved(cfg: Config, files: Files, w: World, file: string) {
    && Plans(files, file, CustomPlan(cfg), w)
    && (DestroysSome(LastOnFile(files, file, CustomPlan(cfg), w).value) ==>
          (cfg.autoApprove && cfg.autoApproveDeletingData) || w.answer == Some(true))
  }

  /** What the file holds, as far as a planning phase read it. */
  predicate HasRead(p: Planned, file: string, read: Option<Plan>, changes: bool) {
    p.ok ==> && read.Some? && p.plan == read.value && p.changes == changes && p.asked == None
             && file in p.files && p.files[file] == read.value
  }

  lemma FirstReads(cfg: Config, files: Files, preApply: bool, w: World, file: string)
    requires var path := if preApply then InspectedPath(cfg) else StorePath(cfg);
             path.Some? && cfg.code(path.value) == cfg.cwd(path.value) == file
    ensures var custom, p := preApply && CustomPlan(cfg), FirstPlan(cfg, files, preApply, w);
            var first := FirstOnFile(files, file, custom, w);
            && p.asked == None
            && (p.ok <==> first.Some? && (custom || w.first.exit != Failed))
            && HasRead(p, file, first, custom || w.first.exit == ChangesNeeded)
  {
  }

  lemma SecondReads(cfg: Config, path: string, p: Planned, w: World, file: string)
    requires p.ok && p.asked == None && HasRead(p, file, Some(p.plan), p.changes)
    requires cfg.code(path) == cfg.cwd(path) == file
    ensures var p' := SecondPlan(cfg, path, p, w);
            && p'.asked == None
            && (p'.ok <==> (w.updatesPuppet ==> w.taintOk && w.second.exit != Failed))
            && HasRead(p', file, if w.updatesPuppet then OnFile(Some(p.plan), w.second) else Some(p.plan),
                       if w.updatesPuppet then w.second.exit == ChangesNeeded else p.changes)
  {
  }

  lemma PlansForApply(cfg: Config, files: Files, w: World, file: string)
    requires OneFile(cfg, file)
    ensures var p := PlanSpec(cfg, files, true, w);
            && (p.ok <==> Approved(cfg, files, w, file))
            && (p.ok ==>
                  && p.changes == FindsChanges(CustomPlan(cfg), w)
                  && file in p.files && Some(p.files[file]) == LastOnFile(files, file, CustomPlan(cfg), w))
  {
    var p := FirstPlan(cfg, files, true, w);
    FirstReads(cfg, files, true, w, file);
    if p.ok {
      SecondReads(cfg, InspectedPath(cfg).value, p, w, file);
      DestroysSomeExactly(LastOnFile(files, file, CustomPlan(cfg), w).value);
    }
  }

  /** With one file, an apply applies the plan written last if and only if it is approved, the
      last planning run found changes, and it is not cancelled; otherwise it applies nothing.
      It fails if and only if the plan is not approved, or has changes and is cancelled. */
  lemma AppliesExactly(cfg: Config, files: Files, w: World, file: string)
    requires OneFile(cfg, file)
    ensures var custom := CustomPlan(cfg);
            var approved, changes := Approved(cfg, files, w, file), FindsChanges(custom, w);
            var r := ApplySpec(cfg, files, w);
            && r.plan == (if approved && changes && !w.cancelled then LastOnFile(files, file, custom, w) else None)
            && (r.ok <==> approved && (changes ==> !w.cancelled))
  {
    PlansForApply(cfg, files, w, file);
  }

  /** Planning without applying asks nothing and succeeds if and only if planning works and the
      plan written last loses no volume. */
  lemma PlansExactly(cfg: Config, files: Files, w: World, file: string)
    requires StorePath(cfg).Some? && cfg.code(StorePath(cfg).value) == cfg.cwd(StorePath(cfg).value) == file
    ensures var p, last := PlanSpec(cfg, files, false, w), LastOnFile(files, file, false, w);
            && p.asked == None
            && (p.ok <==> Plans(files, file, false, w) && !DestroysSome(last.value))
            && (p.ok ==> p.plan == last.value)
  {
    var p := FirstPlan(cfg, files, false, w);
    FirstReads(cfg, files, false, w, file);
    if p.ok {
      SecondReads(cfg, StorePath(cfg).value, p, w, file);
      DestroysSomeExactly(LastOnFile(files, file, false, w).value);
    }
  }
}
