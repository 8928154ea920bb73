/** The feature gates of the five Kubernetes components, as rendered into the hiera data. */
module FeatureGates {
  import opened Text

  type Gates = map<string, bool>

  /* ---------- rendering ---------- */

  function Line(gate: string, value: bool): string {
    "  " + gate + ": " + (if value then "true" else "false")
  }

  function LineSet(gates: Gates): set<string> {
    set gate | gate in gates :: Line(gate, gates[gate])
  }

  /** `text` shows each gate once, in sorted order; nothing for no gates. */
  ghost predicate Rendered(gates: Gates, text: string) {
    if gates == map[] then text == "" else exists lines :: RenderedBy(gates, lines, text)
  }

  ghost predicate RenderedBy(gates: Gates, lines: seq<string>, text: string) {
    && Sorted(lines)
    && multiset(lines) == multiset(LineSet(gates))
    && text == "\n" + Join(lines, "\n")
  }

  lemma LineInjective(a: string, v: bool, b: string, w: bool)
    requires Line(a, v) == Line(b, w)
    ensures a == b && v == w
  {
    var x, y := Line(a, v), Line(b, w);
    assert x[|x| - 2] == if v then 'u' else 's';
    assert y[|y| - 2] == if w then 'u' else 's';
    assert x[2..2 + |a|] == a && y[2..2 + |b|] == b;
  }

  /** The lines determine the gates. */
  lemma LineSetInjective(m: Gates, n: Gates)
    requires LineSet(m) == LineSet(n)
    ensures m == n
  {
    LineSetIncludes(m, n);
    LineSetIncludes(n, m);
  }

  lemma LineSetIncludes(m: Gates, n: Gates)
    requires LineSet(m) <= LineSet(n)
    ensures forall gate :: gate in m ==> gate in n && n[gate] == m[gate]
  {
    forall gate | gate in m ensures gate in n && n[gate] == m[gate] {
      assert Line(gate, m[gate]) in LineSet(m);
      var other :| other in n && Line(other, n[other]) == Line(gate, m[gate]);
      LineInjective(other, n[other], gate, m[gate]);
    }
  }

  predicate NewlineFree(gates: Gates) {
    forall gate :: gate in gates ==> '\n' !in gate
  }

  predicate OneLine(lines: seq<string>) {
    forall i :: 0 <= i < |lines| ==> '\n' !in lines[i]
  }

  /** Text up to the first newline. */
  lemma {:induction false} FirstLine(a: string, x: string, b: string, y: string)
    requires '\n' !in a && '\n' !in b && (x == "" || x[0] == '\n') && (y == "" || y[0] == '\n')
    requires a + x == b + y
    ensures a == b && x == y
  {
    assert a != "" ==> (a + x)[0] == a[0] != '\n';
    assert b != "" ==> (b + y)[0] == b[0] != '\n';
    assert a == "" ==> a + x == x;
    assert b == "" ==> b + y == y;
    if a != "" && b != "" {
      assert (a + x)[1..] == a[1..] + x && (b + y)[1..] == b[1..] + y;
      FirstLine(a[1..], x, b[1..], y);
      assert a == [a[0]] + a[1..] && b == [b[0]] + b[1..];
    }
  }

  /** What `Join` puts after the first line. */
  function Rest(lines: seq<string>): string {
    if |lines| <= 1 then "" else "\n" + Join(lines[1..], "\n")
  }

  lemma {:induction false} JoinInjective(a: seq<string>, b: seq<string>)
    requires a != [] && b != [] && OneLine(a) && OneLine(b) && Join(a, "\n") == Join(b, "\n")
    ensures a == b
    decreases |a|
  {
    assert Join(a, "\n") == a[0] + Rest(a) && Join(b, "\n") == b[0] + Rest(b);
    FirstLine(a[0], Rest(a), b[0], Rest(b));
    assert a == [a[0]] + a[1..] && b == [b[0]] + b[1..];
    if |a| > 1 && |b| > 1 {
      assert Rest(a)[1..] == Join(a[1..], "\n") && Rest(b)[1..] == Join(b[1..], "\n");
      JoinInjective(a[1..], b[1..]);
    }
  }

  lemma LinesAreOneLine(gates: Gates, lines: seq<string>)
    requires NewlineFree(gates) && multiset(lines) == multiset(LineSet(gates))
    ensures OneLine(lines)
  {
    forall i | 0 <= i < |lines| ensures '\n' !in lines[i] {
      assert lines[i] in multiset(lines);
      var gate :| gate in gates && lines[i] == Line(gate, gates[gate]);
      assert '\n' !in "  " && '\n' !in ": " && '\n' !in "true" && '\n' !in "false";
    }
  }

  lemma LinesNotEmpty(gates: Gates, lines: seq<string>)
    requires gates != map[] && multiset(lines) == multiset(LineSet(gates))
    ensures lines != []
  {
    var gate :| gate in gates;
    assert Line(gate, gates[gate]) in multiset(lines);
  }

  /** The text does not depend on the order in which the map was visited. */
  lemma RenderedOnce(gates: Gates, s: string, t: string)
    requires Rendered(gates, s) && Rendered(gates, t)
    ensures s == t
  {
    if gates != map[] {
      var a :| RenderedBy(gates, a, s);
      var b :| RenderedBy(gates, b, t);
      SortedUnique(a, b);
    }
  }

  /** The text of a gate map. */
  ghost function Rendering(gates: Gates): string {
    if gates == map[] then "" else "\n" + Join(SortedArrangement(multiset(LineSet(gates))), "\n")
  }

  lemma RenderingIsOne(gates: Gates)
    ensures Rendered(gates, Rendering(gates))
  {
    if gates != map[] {
      assert RenderedBy(gates, SortedArrangement(multiset(LineSet(gates))), Rendering(gates));
    }
  }

  ghost function SortedArrangement(m: multiset<string>): (lines: seq<string>)
    ensures Sorted(lines) && multiset(lines) == m
    decreases |m|
  {
    if m == multiset{} then []
    else
      var x := Least(m);
      PrependSorted(x, SortedArrangement(m - multiset{x}));
      [x] + SortedArrangement(m - multiset{x})
  }

  ghost function Least(m: multiset<string>): (x: string)
    requires m != multiset{}
    ensures x in m && forall y :: y in m ==> AtMost(x, y)
    decreases |m|
  {
    var z :| z in m;
    if m == multiset{z} then LessIrreflexive(z); z
    else
      var x := Least(m - multiset{z});
      LeastStep(m, x, z);
      if AtMost(x, z) then x else z
  }

  lemma LeastStep(m: multiset<string>, x: string, z: string)
    requires z in m && x in m - multiset{z} && forall y :: y in m - multiset{z} ==> AtMost(x, y)
    ensures forall y :: y in m ==> AtMost(if AtMost(x, z) then x else z, y)
  {
    forall y | y in m ensures AtMost(if AtMost(x, z) then x else z, y) {
      LessIrreflexive(z);
      if !AtMost(x, z) && y != z {
        LessAsymmetric(z, x);
        assert y in m - multiset{z};
        AtMostTransitive(z, x, y);
      }
    }
  }

  lemma PrependSorted(x: string, lines: seq<string>)
    requires Sorted(lines) && forall y :: y in multiset(lines) ==> AtMost(x, y)
    ensures Sorted([x] + lines)
  {
    forall i | 0 <= i < |lines| ensures AtMost(x, lines[i]) {
      assert lines[i] in multiset(lines);
    }
  }

  /** Different gates have different texts. */
  lemma RenderingInjective(m: Gates, n: Gates, text: string)
    requires NewlineFree(m) && NewlineFree(n) && Rendered(m, text) && Rendered(n, text)
    ensures m == n
  {
    if m != map[] && n != map[] {
      var a :| RenderedBy(m, a, text);
      var b :| RenderedBy(n, b, text);
      LinesNotEmpty(m, a);
      LinesNotEmpty(n, b);
      LinesAreOneLine(m, a);
      LinesAreOneLine(n, b);
      assert text[1..] == Join(a, "\n") && text[1..] == Join(b, "\n");
      JoinInjective(a, b);
      assert forall x :: x in LineSet(m) <==> x in multiset(a);
      LineSetInjective(m, n);
    }
  }

  /* ---------- reading the text back ---------- */

  /** The lines of a text. */
  function LinesOf(text: string): (lines: seq<string>)
    ensures lines != []
  {
    if text == "" then [""]
    else if text[0] == '\n' then [""] + LinesOf(text[1..])
    else [[text[0]] + LinesOf(text[1..])[0]] + LinesOf(text[1..])[1..]
  }

  lemma {:induction false} LinesOfFirst(a: string, x: string)
    requires '\n' !in a && (x == "" || x[0] == '\n')
    ensures LinesOf(a + x) == [a] + if x == "" then [] else LinesOf(x[1..])
  {
    if a == "" {
      assert a + x == x;
    } else {
      assert (a + x)[0] == a[0] && (a + x)[1..] == a[1..] + x;
      LinesOfFirst(a[1..], x);
      assert a == [a[0]] + a[1..];
    }
  }

  lemma {:induction false} LinesOfJoin(lines: seq<string>)
    requires lines != [] && OneLine(lines)
    ensures LinesOf(Join(lines, "\n")) == lines
    decreases |lines|
  {
    assert Join(lines, "\n") == lines[0] + Rest(lines);
    LinesOfFirst(lines[0], Rest(lines));
    assert lines == [lines[0]] + lines[1..];
    if |lines| > 1 {
      assert Rest(lines)[1..] == Join(lines[1..], "\n");
      LinesOfJoin(lines[1..]);
    }
  }

  /** A line of the text says that the gate has this value. */
  predicate Shows(text: string, gate: string, value: bool) {
    && text != "" && text[0] == '\n'
    && ("  " + gate + ": " + if value then "true" else "false") in LinesOf(text[1..])
  }

  /** The text shows a gate as on or off exactly when it is. */
  lemma ShowsExactly(gates: Gates, gate: string, value: bool)
    requires NewlineFree(gates)
    ensures Shows(Rendering(gates), gate, value) <==> gate in gates && gates[gate] == value
  {
    if gates != map[] {
      var text := Rendering(gates);
      RenderingIsOne(gates);
      var lines :| RenderedBy(gates, lines, text);
      LinesNotEmpty(gates, lines);
      LinesAreOneLine(gates, lines);
      LinesOfJoin(lines);
      assert text[1..] == Join(lines, "\n");
      LineShown(gates, lines, gate, value);
    }
  }

  lemma LineShown(gates: Gates, lines: seq<string>, gate: string, value: bool)
    requires multiset(lines) == multiset(LineSet(gates))
    ensures Line(gate, value) in lines <==> gate in gates && gates[gate] == value
  {
    assert Line(gate, value) in lines <==> Line(gate, value) in multiset(lines);
    if Line(gate, value) in LineSet(gates) {
      var other :| other in gates && Line(other, gates[other]) == Line(gate, value);
      LineInjective(other, gates[other], gate, value);
    }
  }

  /* ---------- maps on the heap ---------- */

  /** A Go map; the nil map is `null`. */
  class GateMap {
    var gates: Gates

    constructor ()
      ensures gates == map[]
    {
      gates := map[];
    }
  }

  function Contents(m: GateMap?): Gates
    reads m
  {
    if m == null then map[] else m.gates
  }

  /** What the arguments of a merge add to `base`, which adds nothing to itself. */
  function Added(base: GateMap, ms: seq<GateMap?>): Gates
    reads ms
  {
    if ms == [] then map[]
    else Added(base, ms[..|ms| - 1]) + (if ms[|ms| - 1] == base then map[] else Contents(ms[|ms| - 1]))
  }

  /** What is added for a gate is what the last of the maps says that has it. */
  lemma {:induction false} AddedExactly(base: GateMap, ms: seq<GateMap?>, gate: string)
    ensures gate in Added(base, ms) <==> exists i :: Adds(base, ms, gate, i)
    ensures forall i :: Adds(base, ms, gate, i) && (forall j :: i < j ==> !Adds(base, ms, gate, j)) ==>
              gate in Added(base, ms) && Added(base, ms)[gate] == Contents(ms[i])[gate]
    decreases |ms|
  {
    if ms != [] {
      var n := |ms| - 1;
      AddedExactly(base, ms[..n], gate);
      forall i ensures i != n ==> (Adds(base, ms, gate, i) <==> Adds(base, ms[..n], gate, i)) {
        if 0 <= i < n { assert ms[..n][i] == ms[i]; }
      }
      assert gate in Added(base, ms) <==> gate in Added(base, ms[..n]) || Adds(base, ms, gate, n);
      if i :| Adds(base, ms[..n], gate, i) { assert Adds(base, ms, gate, i); }
      if i :| Adds(base, ms, gate, i) && i != n { assert Adds(base, ms[..n], gate, i); }
    }
  }

  predicate Adds(base: GateMap, ms: seq<GateMap?>, gate: string, i: int)
    reads ms
  {
    0 <= i < |ms| && ms[i] != base && gate in Contents(ms[i])
  }

  method DuplicateMapBool(base: GateMap?) returns (copy: GateMap)
    ensures fresh(copy) && copy.gates == Contents(base)
  {
    copy := new GateMap();
    if base != null {
      var left := base.gates.Keys;
      while left != {}
        invariant left <= base.gates.Keys
        invariant copy.gates == base.gates - left
        decreases |left|
      {
        var key :| key in left;
        copy.gates := copy.gates[key := base.gates[key]];
        left := left - {key};
      }
    }
  }

  method MergeMapsBool(base: GateMap, ms: seq<GateMap?>) returns (merged: GateMap)
    modifies base
    ensures merged == base && base.gates == old(base.gates) + old(Added(base, ms))
  {
    for i := 0 to |ms|
      invariant base.gates == old(base.gates) + old(Added(base, ms[..i]))
    {
      assert ms[..i + 1][..i] == ms[..i];
      MergeInto(base, ms[i]);
    }
    assert ms[..|ms|] == ms;
    merged := base;
  }

  /** `gates` is `start` with the gates of `added` written over it, but for those left. */
  ghost predicate PartlyMerged(gates: Gates, start: Gates, added: Gates, left: set<string>) {
    forall key :: KeyMerged(gates, start, added, left, key)
  }

  ghost predicate KeyMerged(gates: Gates, start: Gates, added: Gates, left: set<string>, key: string) {
    var written := key in added && key !in left;
    && (key in gates <==> key in start || written)
    && (key in gates ==> gates[key] == if written then added[key] else start[key])
  }

  lemma MergeStep(gates: Gates, start: Gates, added: Gates, left: set<string>, key: string)
    requires PartlyMerged(gates, start, added, left) && key in left && key in added
    ensures PartlyMerged(gates[key := added[key]], start, added, left - {key})
  {
    var gates', left' := gates[key := added[key]], left - {key};
    forall k ensures KeyMerged(gates', start, added, left', k) {
      assert KeyMerged(gates, start, added, left, k);
    }
  }

  lemma MergeDone(gates: Gates, start: Gates, added: Gates)
    requires PartlyMerged(gates, start, added, {})
    ensures gates == start + added
  {
    forall k ensures k in gates <==> k in start + added
      ensures k in gates ==> gates[k] == (start + added)[k]
    {
      assert KeyMerged(gates, start, added, {}, k);
    }
  }

  /** The inner loop of the merge; merging a map into itself changes nothing. */
  method MergeInto(base: GateMap, vars: GateMap?)
    modifies base
    ensures base.gates == old(base.gates) + (if vars == base then map[] else Contents(vars))
  {
    if vars != null {
      ghost var start, added := base.gates, vars.gates;
      var left := vars.gates.Keys;
      assert PartlyMerged(base.gates, start, added, left);
      while left != {}
        invariant left <= added.Keys
        invariant vars.gates == added
        invariant PartlyMerged(base.gates, start, added, left)
        decreases |left|
      {
        var key :| key in left;
        MergeStep(base.gates, start, added, left, key);
        assert vars == base ==> added[key := added[key]] == added;
        base.gates := base.gates[key := vars.gates[key]];
        left := left - {key};
      }
      MergeDone(base.gates, start, added);
    }
  }

  /* ---------- the components ---------- */

  /** The cluster autoscaler; `overprovisioning` is whether it is enabled, if configured. */
  datatype Autoscaler = Autoscaler(overprovisioning: Option<bool>)

  predicate Overprovisioned(conf: Option<Autoscaler>) {
    conf.Some? && conf.value.overprovisioning.Some? && conf.value.overprovisioning.value
  }

  /** The gates of a component: its own before `PodPriority` before the global ones. */
  function Wanted(global: Gates, component: Gates, podPriority: bool): Gates {
    (if podPriority then global["PodPriority" := true] else global) + component
  }

  /** What a gate is set to, if anything: what the component says comes first, then that pod
      priority is on, then what holds for all components. */
  function Effective(global: Gates, component: Gates, podPriority: bool, gate: string): Option<bool> {
    if gate in component then Some(component[gate])
    else if podPriority && gate == "PodPriority" then Some(true)
    else if gate in global then Some(global[gate])
    else None
  }

  lemma NewlineFreeWanted(global: Gates, component: Gates, podPriority: bool)
    requires NewlineFree(global) && NewlineFree(component)
    ensures NewlineFree(Wanted(global, component, podPriority))
  {
    forall gate | gate in Wanted(global, component, podPriority) ensures '\n' !in gate {
      if gate !in component && gate !in global { assert '\n' !in "PodPriority"; }
    }
  }

  /** The text of a component shows a gate exactly as it is set. */
  lemma ComponentShows(global: Gates, component: Gates, podPriority: bool, gate: string, value: bool)
    requires NewlineFree(global) && NewlineFree(component)
    ensures Shows(Rendering(Wanted(global, component, podPriority)), gate, value) <==>
              Effective(global, component, podPriority, gate) == Some(value)
  {
    NewlineFreeWanted(global, component, podPriority);
    ShowsExactly(Wanted(global, component, podPriority), gate, value);
  }

  method FeatureGatesString(global: GateMap?, component: GateMap?, usePodPriority: bool, conf: Option<Autoscaler>)
    returns (text: string)
    ensures text == Rendering(Wanted(Contents(global), Contents(component), usePodPriority && Overprovisioned(conf)))
  {
    ghost var own := Contents(component);
    var gates := DuplicateMapBool(global);
    if usePodPriority {
      if conf.Some? && conf.value.overprovisioning.Some? && conf.value.overprovisioning.value {
        gates.gates := gates.gates["PodPriority" := true];
      }
    }
    ghost var inherited := gates.gates;
    if component != null {
      AddedOne(gates, component);
      gates := MergeMapsBool(gates, [component]);
    }
    assert gates.gates == inherited + own;
    text := Render(gates);
  }

  lemma AddedOne(base: GateMap, component: GateMap)
    requires base != component
    ensures Added(base, [component]) == component.gates
  {
    assert [component][..0] == [];
    assert Added(base, []) == map[];
  }

  /** The end of `featureGatesString`. */
  method Render(gates: GateMap) returns (text: string)
    ensures text == Rendering(gates.gates)
  {
    if |gates.gates| == 0 {
      return "";
    }
    var args := Lines(gates);
    args := SortBy(args, x => x);
    text := "\n" + Join(args, "\n");
    assert RenderedBy(gates.gates, args, text);
    RenderingIsOne(gates.gates);
    RenderedOnce(gates.gates, text, Rendering(gates.gates));
  }

  /** One line for each gate, in the order in which the map is visited. */
  method Lines(gates: GateMap) returns (args: seq<string>)
    ensures multiset(args) == multiset(LineSet(gates.gates))
  {
    args := [];
    var left := gates.gates.Keys;
    while left != {}
      invariant left <= gates.gates.Keys
      invariant multiset(args) == multiset(LineSet(gates.gates - left))
      decreases |left|
    {
      var gate :| gate in left;
      LineAdded(gates.gates, left, gate);
      args := args + [Line(gate, gates.gates[gate])];
      left := left - {gate};
    }
    assert gates.gates - left == gates.gates;
  }

  lemma LineAdded(gates: Gates, left: set<string>, gate: string)
    requires left <= gates.Keys && gate in left
    ensures multiset(LineSet(gates - (left - {gate})))
         == multiset(LineSet(gates - left)) + multiset{Line(gate, gates[gate])}
  {
    var line, before, after := Line(gate, gates[gate]), gates - left, gates - (left - {gate});
    if line in LineSet(before) {
      var other :| other in before && Line(other, before[other]) == line;
      LineInjective(other, before[other], gate, gates[gate]);
    }
    assert LineSet(after) == LineSet(before) + {line} by {
      forall x | x in LineSet(after) ensures x in LineSet(before) + {line} {
        var other :| other in after && x == Line(other, after[other]);
        if other != gate { assert other in before && before[other] == after[other]; }
      }
      forall x | x in LineSet(before) ensures x in LineSet(after) {
        var other :| other in before && x == Line(other, before[other]);
        assert other in after && before[other] == after[other];
      }
      assert gate in after && after[gate] == gates[gate];
    }
  }

  /** A configured component; its gates may be the nil map. */
  datatype Component = Component(featureGates: GateMap?)

  datatype ClusterKubernetes = ClusterKubernetes(
    globalFeatureGates: GateMap?,
    apiServer: Option<Component>,
    kubelet: Option<Component>,
    scheduler: Option<Component>,
    proxy: Option<Component>,
    controllerManager: Option<Component>,
    clusterAutoscaler: Option<Autoscaler>)

  function GatesOf(component: Option<Component>): GateMap? {
    if component.Some? then component.value.featureGates else null
  }

  datatype Title = APIServer | Kubelet | Scheduler | Proxy | ControllerManager

  /** The line `kubernetes::<title>::feature_gates:<text>` of the hiera data. */
  datatype Variable = FeatureGates(title: Title, text: string)

  /** The variable of a component; none for an empty text. */
  function Entry(title: Title, text: string): seq<Variable> {
    if text == "" then [] else [FeatureGates(title, text)]
  }

  /** The gates of a component under this configuration. */
  ghost function WantedBy(conf: ClusterKubernetes, component: Option<Component>, usePodPriority: bool): Gates
    reads conf.globalFeatureGates, GatesOf(component)
  {
    Wanted(Contents(conf.globalFeatureGates), Contents(GatesOf(component)),
           usePodPriority && Overprovisioned(conf.clusterAutoscaler))
  }

  /** The components in the order of the code, each with its gates; the first three may get
      `PodPriority`. */
  ghost function AllGates(conf: ClusterKubernetes): seq<(Title, Gates)>
    reads conf.globalFeatureGates, GatesOf(conf.apiServer), GatesOf(conf.kubelet), GatesOf(conf.scheduler)
    reads GatesOf(conf.proxy), GatesOf(conf.controllerManager)
  {
    [(APIServer, WantedBy(conf, conf.apiServer, true)),
     (Kubelet, WantedBy(conf, conf.kubelet, true)),
     (Scheduler, WantedBy(conf, conf.scheduler, true)),
     (Proxy, WantedBy(conf, conf.proxy, false)),
     (ControllerManager, WantedBy(conf, conf.controllerManager, false))]
  }

  ghost function Texts(all: seq<(Title, Gates)>): seq<(Title, string)> {
    seq(|all|, i requires 0 <= i < |all| => (all[i].0, Rendering(all[i].1)))
  }

  /** The variables for these texts, in order. */
  function Variables(texts: seq<(Title, string)>): seq<Variable> {
    if texts == [] then []
    else Variables(texts[..|texts| - 1]) + Entry(texts[|texts| - 1].0, texts[|texts| - 1].1)
  }

  /** There is a variable for each text that is not empty, and no other. */
  lemma {:induction false} VariablesAre(texts: seq<(Title, string)>, v: Variable)
    ensures v in Variables(texts) <==> v.text != "" && (v.title, v.text) in texts
  {
    if texts != [] {
      var n := |texts| - 1;
      VariablesAre(texts[..n], v);
      assert texts == texts[..n] + [texts[n]];
    }
  }

  function ComponentOf(conf: ClusterKubernetes, title: Title): Option<Component> {
    match title
    case APIServer => conf.apiServer
    case Kubelet => conf.kubelet
    case Scheduler => conf.scheduler
    case Proxy => conf.proxy
    case ControllerManager => conf.controllerManager
  }

  /** The gates that a component is to get: pod priority is for the API server, the kubelet and
      the scheduler only, and only if overprovisioning is enabled. */
  ghost function GatesFor(conf: ClusterKubernetes, title: Title): Gates
    reads conf.globalFeatureGates, GatesOf(ComponentOf(conf, title))
  {
    var component := ComponentOf(conf, title);
    Wanted(Contents(conf.globalFeatureGates),
           if component.Some? then Contents(component.value.featureGates) else map[],
           conf.clusterAutoscaler == Some(Autoscaler(Some(true))) && title in {APIServer, Kubelet, Scheduler})
  }

  /** A component has a variable exactly if it has gates, and then with their text. */
  lemma VariablesExactly(conf: ClusterKubernetes, title: Title, text: string)
    ensures FeatureGates(title, text) in Variables(Texts(AllGates(conf))) <==>
              text != "" && text == Rendering(GatesFor(conf, title))
  {
    var all := AllGates(conf);
    var i := GatesAt(conf, title);
    VariablesAre(Texts(all), FeatureGates(title, text));
    TextAt(all, i, text);
  }

  lemma TextAt(all: seq<(Title, Gates)>, i: nat, text: string)
    requires i < |all| && forall j :: 0 <= j < |all| && all[j].0 == all[i].0 ==> j == i
    ensures (all[i].0, text) in Texts(all) <==> text == Rendering(all[i].1)
  {
    var texts := Texts(all);
    assert texts[i] == (all[i].0, Rendering(all[i].1));
    if (all[i].0, text) in texts {
      var j :| 0 <= j < |texts| && texts[j] == (all[i].0, text);
      assert all[j].0 == all[i].0;
    }
  }

  /** Each component is listed once, with the gates that it is to get. */
  lemma GatesAt(conf: ClusterKubernetes, title: Title) returns (i: nat)
    ensures i < |AllGates(conf)| && AllGates(conf)[i] == (title, GatesFor(conf, title))
    ensures forall j :: 0 <= j < |AllGates(conf)| && AllGates(conf)[j].0 == title ==> j == i
  {
    i := match title
         case APIServer => 0
         case Kubelet => 1
         case Scheduler => 2
         case Proxy => 3
         case ControllerManager => 4;
  }

  ghost function PriorityVariables(conf: ClusterKubernetes): seq<Variable>
    reads conf.globalFeatureGates, GatesOf(conf.apiServer), GatesOf(conf.kubelet), GatesOf(conf.scheduler)
  {
    Entry(APIServer, Rendering(WantedBy(conf, conf.apiServer, true)))
    + Entry(Kubelet, Rendering(WantedBy(conf, conf.kubelet, true)))
    + Entry(Scheduler, Rendering(WantedBy(conf, conf.scheduler, true)))
  }

  ghost function PlainVariables(conf: ClusterKubernetes): seq<Variable>
    reads conf.globalFeatureGates, GatesOf(conf.proxy), GatesOf(conf.controllerManager)
  {
    Entry(Proxy, Rendering(WantedBy(conf, conf.proxy, false)))
    + Entry(ControllerManager, Rendering(WantedBy(conf, conf.controllerManager, false)))
  }

  lemma AllVariables(conf: ClusterKubernetes)
    ensures PriorityVariables(conf) + PlainVariables(conf) == Variables(Texts(AllGates(conf)))
  {
    var all := AllGates(conf);
    FiveVariables(all);
  }

  lemma FiveVariables(all: seq<(Title, Gates)>)
    requires |all| == 5
    ensures Variables(Texts(all)) ==
              (Entry(all[0].0, Rendering(all[0].1)) + Entry(all[1].0, Rendering(all[1].1))
               + Entry(all[2].0, Rendering(all[2].1)))
              + (Entry(all[3].0, Rendering(all[3].1)) + Entry(all[4].0, Rendering(all[4].1)))
  {
    var texts := Texts(all);
    VariablesOfFive(texts);
  }

  lemma VariablesOfFive(texts: seq<(Title, string)>)
    requires |texts| == 5
    ensures Variables(texts) ==
              (Entry(texts[0].0, texts[0].1) + Entry(texts[1].0, texts[1].1) + Entry(texts[2].0, texts[2].1))
              + (Entry(texts[3].0, texts[3].1) + Entry(texts[4].0, texts[4].1))
  {
    assert texts[..4][..3] == texts[..3] && texts[..3][..2] == texts[..2];
    assert texts[..2][..1] == texts[..1] && texts[..1][..0] == [];
    assert Variables(texts[..1]) == Entry(texts[0].0, texts[0].1);
    assert Variables(texts[..2]) == Variables(texts[..1]) + Entry(texts[1].0, texts[1].1);
    assert Variables(texts[..3]) == Variables(texts[..2]) + Entry(texts[2].0, texts[2].1);
    assert Variables(texts[..4]) == Variables(texts[..3]) + Entry(texts[3].0, texts[3].1);
  }

  class HieraData {
    var variables: seq<Variable>

    /** The feature-gate part of `kubernetesClusterConfig`: no map of the configuration
        changes. */
    method AppendFeatureGates(conf: ClusterKubernetes)
      modifies this
      ensures variables == old(variables) + Variables(Texts(old(AllGates(conf))))
    {
      ghost var all := AllGates(conf);
      AllVariables(conf);
      var entries := GateVariables(conf);
      variables := variables + entries;
    }
  }

  method GateVariables(conf: ClusterKubernetes) returns (entries: seq<Variable>)
    ensures entries == old(PriorityVariables(conf) + PlainVariables(conf))
  {
    ghost var priority, plain := PriorityVariables(conf), PlainVariables(conf);
    var first := PriorityGates(conf);
    assert first == priority;
    var last := PlainGates(conf);
    assert last == plain;
    entries := first + last;
  }

  method PriorityGates(conf: ClusterKubernetes) returns (entries: seq<Variable>)
    ensures entries == PriorityVariables(conf)
  {
    var a := ComponentGates(conf, APIServer, conf.apiServer, true);
    var k := ComponentGates(conf, Kubelet, conf.kubelet, true);
    var s := ComponentGates(conf, Scheduler, conf.scheduler, true);
    entries := a + k + s;
  }

  method PlainGates(conf: ClusterKubernetes) returns (entries: seq<Variable>)
    ensures entries == PlainVariables(conf)
  {
    var p := ComponentGates(conf, Proxy, conf.proxy, false);
    var c := ComponentGates(conf, ControllerManager, conf.controllerManager, false);
    entries := p + c;
  }

  method ComponentGates(conf: ClusterKubernetes, title: Title, component: Option<Component>, usePodPriority: bool)
    returns (entry: seq<Variable>)
    ensures entry == Entry(title, Rendering(WantedBy(conf, component, usePodPriority)))
  {
    entry := [];
    var gates :=
      FeatureGatesString(conf.globalFeatureGates, GatesOf(component), usePodPriority, conf.clusterAutoscaler);
    if gates != "" {
      entry := [FeatureGates(title, gates)];
    }
  }
}
