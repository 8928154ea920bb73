/** The paths an apply inspects and applies, spelt out: what makes them the same file.

    Only `cluster plan` has a flag for where plans are stored, so in an apply that path is
    always the default one. Paths are resolved by their text; symbolic links are not. */
module PlanPaths {
  import opened Text
  import opened TerraformApply

  /* ---------- resolving a path ---------- */

  /** An absolute, clean path as its components. */
  type Dir = seq<string>

  predicate IsName(c: string) {
    c != "" && c != "." && c != ".." && '/' !in c
  }

  predicate IsDir(d: Dir) {
    forall i :: 0 <= i < |d| ==> IsName(d[i])
  }

  /** `strings.Split(path, "/")`. */
  function Components(path: string): (cs: seq<string>)
    ensures cs != []
  {
    if path == "" then [""]
    else if path[0] == '/' then [""] + Components(path[1..])
    else [[path[0]] + Components(path[1..])[0]] + Components(path[1..])[1..]
  }

  /** Following the components from a directory. */
  function Walk(d: Dir, cs: seq<string>): Dir
    decreases |cs|
  {
    if cs == [] then d
    else if cs[0] == "" || cs[0] == "." then Walk(d, cs[1..])
    else if cs[0] == ".." then Walk(if d == [] then [] else d[..|d| - 1], cs[1..])
    else Walk(d + [cs[0]], cs[1..])
  }

  /** The file a process in directory `d` opens for a path. */
  function Open(d: Dir, path: string): Dir {
    Walk(if path != "" && path[0] == '/' then [] else d, Components(path))
  }

  function Slashed(d: Dir): string {
    if d == [] then "" else "/" + (d[0] + Slashed(d[1..]))
  }

  function Show(d: Dir): string {
    if d == [] then "/" else Slashed(d)
  }

  const BACKSLASH := 92 as char

  /** `homedir.Expand`: a leading `~` alone or before a slash; other users' homes fail. */
  function HomeExpand(home: Dir, path: string): Option<string> {
    if path == "" || path[0] != '~' then Some(path)
    else if |path| > 1 && path[1] != '/' && path[1] != BACKSLASH then None
    else Some(Show(Walk(home, Components(path[1..]))))
  }

  /** `utils.Expand`: the home directory, then `filepath.Abs`. */
  function Expand(home: Dir, wd: Dir, path: string): Option<string> {
    match HomeExpand(home, path)
    case None => None
    case Some(p) => Some(Show(Open(wd, p)))
  }

  /* ---------- a clean path opens itself ---------- */

  lemma {:induction false} ComponentsOfName(c: string, rest: string)
    requires '/' !in c
    ensures Components(c + "/" + rest) == [c] + Components(rest)
    ensures Components(c) == [c]
  {
    if c == "" {
      assert c + "/" + rest == "/" + rest;
      assert ("/" + rest)[1..] == rest;
    } else {
      var p := c + "/" + rest;
      assert p[0] == c[0] != '/' && p[1..] == c[1..] + "/" + rest;
      ComponentsOfName(c[1..], rest);
      assert [c[0]] + c[1..] == c;
    }
  }

  lemma {:induction false} ComponentsOfSlashed(d: Dir)
    requires d != [] && IsDir(d)
    ensures Components(Slashed(d)) == [""] + d
    decreases |d|
  {
    var rest := d[1..];
    var after := d[0] + Slashed(rest);
    assert IsName(d[0]) && Slashed(d)[0] == '/' && Slashed(d)[1..] == after;
    if rest == [] {
      assert after == d[0] && d == [d[0]];
      ComponentsOfName(d[0], "");
    } else {
      var z := rest[0] + Slashed(rest[1..]);
      assert forall i :: 0 <= i < |rest| ==> rest[i] == d[i + 1];
      ComponentsOfSlashed(rest);
      assert Slashed(rest) == "/" + z && ("/" + z)[1..] == z;
      assert ([""] + Components(z))[1..] == Components(z) && ([""] + rest)[1..] == rest;
      ComponentsOfName(d[0], z);
      assert after == d[0] + "/" + z && d == [d[0]] + rest;
    }
  }

  lemma {:induction false} WalkNames(d: Dir, names: seq<string>)
    requires IsDir(names)
    ensures Walk(d, names) == d + names
    decreases |names|
  {
    if names == [] {
      assert d + names == d;
    } else {
      assert IsName(names[0]);
      assert forall i :: 0 <= i < |names| - 1 ==> names[1..][i] == names[i + 1];
      WalkNames(d + [names[0]], names[1..]);
      assert d + names == d + [names[0]] + names[1..];
    }
  }

  /** A clean path opens the same file from everywhere. */
  lemma OpenShow(from: Dir, d: Dir)
    requires IsDir(d)
    ensures Open(from, Show(d)) == d
  {
    if d == [] {
      assert Components("/") == [""] + Components("") == ["", ""];
      assert Walk([], ["", ""]) == [] by { assert ["", ""][1..] == [""] && [""][1..] == []; }
    } else {
      ComponentsOfSlashed(d);
      assert ([""] + d)[1..] == d;
      WalkNames([], d);
      assert [] + d == d;
    }
  }

  lemma ShowInjective(a: Dir, b: Dir)
    requires IsDir(a) && IsDir(b) && Show(a) == Show(b)
    ensures a == b
  {
    OpenShow([], a);
    OpenShow([], b);
  }

  lemma {:induction false} ComponentsHaveNoSlash(path: string)
    ensures forall i :: 0 <= i < |Components(path)| ==> '/' !in Components(path)[i]
  {
    if path != "" { ComponentsHaveNoSlash(path[1..]); }
  }

  lemma {:induction false} WalkIsDir(d: Dir, cs: seq<string>)
    requires IsDir(d) && forall i :: 0 <= i < |cs| ==> '/' !in cs[i]
    ensures IsDir(Walk(d, cs))
    decreases |cs|
  {
    if cs != [] {
      assert forall i :: 0 <= i < |cs| - 1 ==> cs[1..][i] == cs[i + 1];
      if cs[0] == "" || cs[0] == "." {
        WalkIsDir(d, cs[1..]);
      } else if cs[0] == ".." {
        WalkIsDir(if d == [] then [] else d[..|d| - 1], cs[1..]);
      } else {
        WalkIsDir(d + [cs[0]], cs[1..]);
      }
    }
  }

  lemma OpenIsDir(d: Dir, path: string)
    requires IsDir(d)
    ensures IsDir(Open(d, path)) && IsDir(Walk(d, Components(path)))
  {
    ComponentsHaveNoSlash(path);
    WalkIsDir(d, Components(path));
    WalkIsDir([], Components(path));
  }

  /* ---------- there and back ---------- */

  lemma {:induction false} ComponentsConcat(path: string, rest: string)
    ensures Components(path + "/" + rest) == Components(path) + Components(rest)
  {
    var whole := path + "/" + rest;
    if path == "" {
      assert whole[1..] == rest;
    } else {
      assert whole[0] == path[0] && whole[1..] == path[1..] + "/" + rest;
      ComponentsConcat(path[1..], rest);
    }
  }

  lemma {:induction false} WalkConcat(d: Dir, a: seq<string>, b: seq<string>)
    ensures Walk(d, a + b) == Walk(Walk(d, a), b)
    decreases |a|
  {
    if a == [] {
      assert a + b == b;
    } else {
      assert (a + b)[0] == a[0] && (a + b)[1..] == a[1..] + b;
      var next := if a[0] == "" || a[0] == "." then d
                  else if a[0] == ".." then (if d == [] then [] else d[..|d| - 1]) else d + [a[0]];
      WalkConcat(next, a[1..], b);
    }
  }

  /** A name after a path goes down into it, and two dots after that go back up again. */
  lemma DownAndUp(d: Dir, path: string, name: string)
    requires path != "" && IsName(name)
    ensures Open(d, path + "/" + name) == Open(d, path) + [name]
    ensures Open(d, path + "/" + name + "/" + "..") == Open(d, path)
  {
    var start := if path[0] == '/' then [] else d;
    var down := path + "/" + name;
    ComponentsConcat(path, name);
    ComponentsConcat(down, "..");
    assert Components(name) == [name] by { OneComponent(name); }
    assert Components("..") == [".."] by { OneComponent(".."); }
    WalkConcat(start, Components(path), [name]);
    WalkConcat(start, Components(down), [".."]);
    assert [name][1..] == [] && [".."][1..] == [];
    assert down[0] == path[0] && (down + "/" + "..")[0] == path[0];
  }

  lemma {:induction false} OneComponent(c: string)
    requires '/' !in c
    ensures Components(c) == [c]
  {
    if c != "" {
      OneComponent(c[1..]);
      assert c == [c[0]] + c[1..] && [c[1..]][1..] == [];
    }
  }

  /* ---------- an apply ---------- */

  /** What an apply is given and where it runs: tarmak in `wd`, terraform in `code`, with the
      plan at `plan` by default. */
  datatype Setting = Setting(location: string, autoApprove: bool, autoApproveDeletingData: bool,
                             home: Dir, wd: Dir, code: Dir, plan: Dir)
  {
    predicate Valid() {
      IsDir(home) && IsDir(wd) && IsDir(code) && IsDir(plan)
    }
  }

  function ConfigOf(a: Setting): Config {
    Config(PLACEHOLDER, a.location, a.autoApprove, a.autoApproveDeletingData, Show(a.plan),
           p => Show(Open(a.wd, p)), p => Show(Open(a.code, p)), p => Expand(a.home, a.wd, p))
  }

  predicate Tilde(path: string) {
    path != "" && path[0] == '~'
  }

  /** For an apply the inspected file is the applied one if and only if the location is the
      default, or does not start with `~`, or the file of that literal name in the working
      directory happens to be the one in the home directory. */
  lemma SameFileForApply(a: Setting)
    requires a.Valid()
    ensures SameFile(ConfigOf(a)) <==>
              || a.location == PLACEHOLDER
              || !Tilde(a.location)
              || ((|a.location| == 1 || a.location[1] == '/' || a.location[1] == BACKSLASH)
                  && Open(a.wd, a.location) == Walk(a.home, Components(a.location[1..])))
  {
    var cfg := ConfigOf(a);
    OpenIsDir(a.wd, a.location);
    OpenShow(a.code, Open(a.wd, a.location));
    if a.location == PLACEHOLDER {
      OpenShow(a.wd, a.plan);
      OpenShow(a.code, a.plan);
    } else if Tilde(a.location) && Expand(a.home, a.wd, a.location).Some? {
      var inspected, applied := Open(a.wd, a.location), Walk(a.home, Components(a.location[1..]));
      OpenIsDir(a.home, a.location[1..]);
      OpenShow(a.wd, applied);
      OpenShow(a.code, applied);
      assert cfg.cwd(InspectedPath(cfg).value) == Show(inspected);
      assert cfg.code(LocationPath(cfg).value) == Show(applied);
      if Show(inspected) == Show(applied) { ShowInjective(inspected, applied); }
    }
  }

  lemma TildeFiles(home: Dir, wd: Dir, x: string)
    requires IsDir(Components(x))
    ensures var path := "~" + "/" + x;
            && Open(wd, path) == wd + ["~"] + Components(x)
            && Walk(home, Components(path[1..])) == home + Components(x)
  {
    var path, cs := "~" + "/" + x, Components(x);
    ComponentsOfName("~", x);
    ComponentsOfName("", x);
    assert path[1..] == "" + "/" + x;
    assert ([""] + cs)[1..] == cs && (["~"] + cs)[1..] == cs;
    WalkNames(wd + ["~"], cs);
    WalkNames(home, cs);
  }

  lemma SamePrefix(a: Dir, b: Dir, cs: Dir)
    ensures a + cs == b + cs <==> a == b
  {
    if a + cs == b + cs {
      assert |a| == |b|;
      assert (a + cs)[..|a|] == a && (b + cs)[..|b|] == b;
    }
  }

  lemma NotPlaceholder(x: string)
    ensures "~" + "/" + x != PLACEHOLDER
  {
    assert ("~" + "/" + x)[0] == '~';
    assert PLACEHOLDER[0] == "${TARMAK_CONFIG}"[0] == '$';
  }

  lemma TildeSameFile(a: Setting, x: string)
    requires a.Valid() && a.location == "~" + "/" + x && IsDir(Components(x))
    ensures SameFile(ConfigOf(a)) <==> a.home == a.wd + ["~"]
    ensures InspectedPath(ConfigOf(a)).Some? && LocationPath(ConfigOf(a)).Some?
  {
    NotPlaceholder(x);
    SameFileForApply(a);
    TildeFiles(a.home, a.wd, x);
    SamePrefix(a.wd + ["~"], a.home, Components(x));
  }

  /** With a location below the home directory, written `~/<x>` and not expanded by a shell, an
      apply is safe exactly when both approval flags are set, or the home directory is the
      directory called `~` in the working directory. */
  lemma TildeSafeExactly(a: Setting, x: string)
    requires a.Valid() && a.location == "~" + "/" + x && IsDir(Components(x))
    ensures AlwaysCleared(ConfigOf(a)) <==> (a.autoApprove && a.autoApproveDeletingData) || a.home == a.wd + ["~"]
  {
    var cfg := ConfigOf(a);
    TildeSameFile(a, x);
    SafeExactly(cfg);
  }
}
