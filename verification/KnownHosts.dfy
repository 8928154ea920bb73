/** Reconciling the known-hosts file of a cluster with the keys in the instances' tags. */
module KnownHosts {
  import opened Text

  datatype Key = Key(typ: string, blob: string)

  /** A line of the file. `hosts` are the addresses its host pattern matches; for a wildcard
      or hashed pattern these need not occur in the text. Comments and blanks are `Noise`. */
  datatype Line = Entry(text: string, hosts: set<string>, key: Key) | Noise(text: string)

  type File = seq<Line>

  datatype Host = Host(hostname: string, keys: seq<Key>, aliases: seq<string>)

  datatype Verdict = Valid | Unknown | Mismatch

  /* ---------- the known-hosts validator ---------- */

  predicate Matches(line: Line, addr: string) {
    line.Entry? && addr in line.hosts
  }

  /** The keys on record for an address, in file order. */
  function Matching(file: File, addr: string): seq<Key> {
    if file == [] then []
    else (if Matches(file[0], addr) then [file[0].key] else []) + Matching(file[1..], addr)
  }

  /** The first key of a type counts. */
  function FirstOfType(keys: seq<Key>, typ: string): Option<Key> {
    if keys == [] then None
    else if keys[0].typ == typ then Some(keys[0])
    else FirstOfType(keys[1..], typ)
  }

  function Check(known: seq<Key>, key: Key): Verdict {
    if known == [] then Unknown
    else if FirstOfType(known, key.typ) == Some(key) then Valid
    else Mismatch
  }

  function Validate(file: File, addr: string, key: Key): Verdict {
    Check(Matching(file, addr), key)
  }

  /** Line `i` is the first that matches the address with a key of this type. */
  predicate FirstFor(file: File, addr: string, typ: string, i: nat) {
    && i < |file| && Matches(file[i], addr) && file[i].key.typ == typ
    && forall j :: 0 <= j < i && Matches(file[j], addr) ==> file[j].key.typ != typ
  }

  lemma {:induction false} FirstForExactly(file: File, addr: string, key: Key)
    ensures FirstOfType(Matching(file, addr), key.typ) == Some(key) <==>
              exists i: nat :: FirstFor(file, addr, key.typ, i) && file[i].key == key
    ensures Matching(file, addr) == [] <==> forall i :: 0 <= i < |file| ==> !Matches(file[i], addr)
  {
    if file != [] {
      var rest := file[1..];
      FirstForExactly(rest, addr, key);
      assert forall j :: 0 <= j < |rest| ==> rest[j] == file[j + 1];
      if Matches(file[0], addr) {
        assert Matching(file, addr)[0] == file[0].key && Matching(file, addr)[1..] == Matching(rest, addr);
      } else {
        assert Matching(file, addr) == Matching(rest, addr);
        assert forall j :: 0 < j < |file| ==> file[j] == rest[j - 1];
      }
      if Matches(file[0], addr) && file[0].key.typ == key.typ {
        assert FirstFor(file, addr, key.typ, 0);
        assert forall i: nat :: FirstFor(file, addr, key.typ, i) ==> i == 0;
      } else {
        FirstForRest(file, addr, key);
      }
    }
  }

  lemma FirstForRest(file: File, addr: string, key: Key)
    requires file != [] && !(Matches(file[0], addr) && file[0].key.typ == key.typ)
    ensures (exists i: nat :: FirstFor(file, addr, key.typ, i) && file[i].key == key) <==>
              exists i: nat :: FirstFor(file[1..], addr, key.typ, i) && file[1..][i].key == key
  {
    if i: nat :| FirstFor(file, addr, key.typ, i) && file[i].key == key {
      assert i > 0 && file[1..][i - 1] == file[i];
      assert FirstFor(file[1..], addr, key.typ, i - 1);
    }
    if i: nat :| FirstFor(file[1..], addr, key.typ, i) && file[1..][i].key == key {
      forall j | 0 <= j < i + 1 && Matches(file[j], addr) ensures file[j].key.typ != key.typ {
        if j > 0 { assert file[j] == file[1..][j - 1]; }
      }
      assert FirstFor(file, addr, key.typ, i + 1) && file[i + 1].key == key;
    }
  }

  /** A key is unknown when no line matches the address, and valid when the first matching line
      with a key of its type has this key; otherwise it is a mismatch. */
  lemma ValidateExactly(file: File, addr: string, key: Key)
    ensures var unknown := forall i :: 0 <= i < |file| ==> !Matches(file[i], addr);
            var valid := exists i: nat :: FirstFor(file, addr, key.typ, i) && file[i].key == key;
            Validate(file, addr, key) == if unknown then Unknown else if valid then Valid else Mismatch
  {
    FirstForExactly(file, addr, key);
  }

  /* ---------- one pass over one host ---------- */

  function NewLine(addr: string, key: Key): Line {
    Entry(addr + " " + key.typ + " " + key.blob, {addr}, key)
  }

  function NewLines(addr: string, keys: seq<Key>): File {
    seq(|keys|, i requires 0 <= i < |keys| => NewLine(addr, keys[i]))
  }

  /** Rewriting the file without the lines that mention an address; blank lines go too. */
  function Without(file: File, addr: string): File {
    if file == [] then []
    else (if file[0].text != "" && !Contains(file[0].text, addr) then [file[0]] else []) + Without(file[1..], addr)
  }

  lemma WithoutFrom(file: File, k: nat, addr: string, done: File)
    requires k < |file|
    ensures done + Without(file[k..], addr) ==
              (if file[k].text != "" && !Contains(file[k].text, addr) then done + [file[k]] else done)
              + Without(file[k + 1..], addr)
  {
    assert file[k..][0] == file[k] && file[k..][1..] == file[k + 1..];
    var rest := Without(file[k + 1..], addr);
    assert done + ([file[k]] + rest) == (done + [file[k]]) + rest;
    assert [] + rest == rest;
  }

  predicate AnyMismatch(known: seq<Key>, keys: seq<Key>) {
    exists i :: 0 <= i < |keys| && Check(known, keys[i]) == Mismatch
  }

  /** The file after one pass over a host's keys, and whether the host is to be retried. */
  function Pass(file: File, h: Host): (File, bool) {
    var known := Matching(file, h.hostname);
    if known == [] then (file + NewLines(h.hostname, h.keys), false)
    else if AnyMismatch(known, h.keys) then (Without(file, h.hostname), true)
    else (file, false)
  }

  class SSH {
    var knownHosts: File
    var hosts: map<string, Host>

    constructor (knownHosts: File)
      ensures this.knownHosts == knownHosts && hosts == map[]
    {
      this.knownHosts, hosts := knownHosts, map[];
    }

    /** Truncates the file and writes back the lines that do not mention the address. */
    method RewriteWithout(addr: string)
      modifies this`knownHosts
      ensures knownHosts == Without(old(knownHosts), addr)
    {
      var b := knownHosts;
      knownHosts := [];
      var k := 0;
      while k < |b|
        invariant k <= |b| && knownHosts + Without(b[k..], addr) == Without(b, addr)
      {
        WithoutFrom(b, k, addr, knownHosts);
        if b[k].text != "" && !Contains(b[k].text, addr) {
          knownHosts := knownHosts + [b[k]];
        }
        k := k + 1;
      }
    }

    /** The loop over a host's keys. The validator is made once, before the loop. */
    method CheckHostKeys(h: Host) returns (retry: bool)
      modifies this`knownHosts
      ensures (knownHosts, retry) == Pass(old(knownHosts), h)
    {
      var validator := knownHosts;
      ghost var known := Matching(validator, h.hostname);
      for n := 0 to |h.keys|
        invariant known == [] ==> knownHosts == validator + NewLines(h.hostname, h.keys[..n])
        invariant known != [] ==> knownHosts == validator && !AnyMismatch(known, h.keys[..n])
      {
        assert h.keys[..n + 1] == h.keys[..n] + [h.keys[n]];
        var verdict := Validate(validator, h.hostname, h.keys[n]);
        if verdict == Mismatch {
          RewriteWithout(h.hostname);
          assert AnyMismatch(known, h.keys);
          return true;
        }
        if verdict == Unknown {
          knownHosts := knownHosts + [NewLine(h.hostname, h.keys[n])];
          assert NewLines(h.hostname, h.keys[..n + 1])
              == NewLines(h.hostname, h.keys[..n]) + [NewLine(h.hostname, h.keys[n])];
        }
      }
      assert h.keys[..|h.keys|] == h.keys;
      retry := false;
    }

    /** The host loop of `WriteConfig`, watched for `patience` rounds. `retried` lists the
        host index of each retry. A host can be retried for ever: see `RetriesForEver`. */
    method WriteConfig(hosts: seq<Host>, patience: nat) returns (ending: Ending, retried: seq<nat>)
      modifies this
      ensures forall m :: 0 <= m < |retried| ==> retried[m] < |hosts|
      ensures Kept(old(knownHosts), knownHosts, hosts, retried)
      ensures Elsewhere(knownHosts, hosts) == Elsewhere(old(knownHosts), hosts)
      ensures ending != StillRetrying ==>
                (ending == Finished <==> forall j :: 0 <= j < |hosts| ==> hosts[j].aliases != [])
      ensures ending == Finished ==> this.hosts == Table(hosts)
      ensures ending == Finished && Independent(old(knownHosts), hosts) ==> AllServed(knownHosts, hosts)
      ensures AllPlain(old(knownHosts), hosts) ==>
                && (forall i, j :: 0 <= i < j < |retried| ==> retried[i] < retried[j])
                && |retried| <= |hosts|
                && (patience >= 2 * |hosts| ==> ending != StillRetrying)
      ensures ending != StillRetrying ==> Ends(old(knownHosts), hosts, 0)
      ensures Ends(old(knownHosts), hosts, 0) && patience >= 2 * |hosts| ==> ending != StillRetrying
    {
      this.hosts := map[];
      var ok := true;
      retried := [];
      var i := 0;
      ghost var file0, met, again := knownHosts, knownHosts, 0;
      while i < |hosts| && ok && i + |retried| < patience
        invariant Looping(file0, knownHosts, hosts, i, retried, this.hosts, met, again, ok)
        decreases patience - i - |retried|
      {
        ghost var file := knownHosts;
        var retry := ReconcileHost(hosts, i, file0, retried);
        LoopStep(file0, file, hosts, i, retried, this.hosts, met, again);
        if retry {
          again := again + 1;
          retried := retried + [i];
        } else {
          met, again := AfterHost(met, hosts[i]), 0;
          ok := hosts[i].aliases != [];
          if ok {
            this.hosts := this.hosts[hosts[i].aliases[0] := hosts[i]];
          }
          i := i + 1;
        }
      }
      ending := if !ok then NoAlias else if i == |hosts| then Finished else StillRetrying;
      LoopEnds(file0, knownHosts, hosts, i, retried, this.hosts, met, again, ok);
    }

    /** The part of the host loop up to the retry. */
    method ReconcileHost(hosts: seq<Host>, i: nat, ghost file0: File, ghost retried: seq<nat>) returns (retry: bool)
      requires i < |hosts| && LoopState(file0, knownHosts, hosts, i, retried)
      modifies this`knownHosts
      ensures if retry then LoopState(file0, knownHosts, hosts, i, retried + [i])
              else LoopState(file0, knownHosts, hosts, i + 1, retried)
      ensures (knownHosts, retry) == Pass(old(knownHosts), hosts[i])
    {
      ghost var before := knownHosts;
      retry := CheckHostKeys(hosts[i]);
      PassKeepsLines(file0, before, hosts, i, retried);
      PassKeepsElsewhere(before, hosts, i);
      if AllPlain(file0, hosts) { PassReconciles(file0, before, hosts, i, retried); }
    }
  }

  datatype Ending = Finished | NoAlias | StillRetrying

  ghost predicate AllPlain(file: File, hosts: seq<Host>) {
    forall j :: 0 <= j < |hosts| ==> PlainFor(file, hosts[j].hostname)
  }

  ghost predicate LoopState(file0: File, file: File, hosts: seq<Host>, i: nat, retried: seq<nat>) {
    && i <= |hosts|
    && (forall m :: 0 <= m < |retried| ==> retried[m] < |hosts|)
    && Kept(file0, file, hosts, retried)
    && Elsewhere(file, hosts) == Elsewhere(file0, hosts)
    && (AllPlain(file0, hosts) ==> Reconciled(file0, file, hosts, i, retried))
  }

  /** The invariant of the host loop. */
  ghost predicate Looping(file0: File, file: File, hosts: seq<Host>, i: nat, retried: seq<nat>,
                          table: map<string, Host>, met: File, again: nat, ok: bool) {
    && LoopState(file0, file, hosts, i, retried)
    && Registered(hosts, i, table, ok)
    && InTurn(file0, file, hosts, i, |retried|, met, again, ok)
  }

  lemma LoopStep(file0: File, file: File, hosts: seq<Host>, i: nat, retried: seq<nat>, table: map<string, Host>,
                 met: File, again: nat)
    requires i < |hosts| && Looping(file0, file, hosts, i, retried, table, met, again, true)
    ensures var (file', retry) := Pass(file, hosts[i]);
            var ok := hosts[i].aliases != [];
            if retry then
              Registered(hosts, i, table, true) && InTurn(file0, file', hosts, i, |retried + [i]|, met, again + 1, true)
            else
              && Registered(hosts, i + 1, if ok then table[hosts[i].aliases[0] := hosts[i]] else table, ok)
              && InTurn(file0, file', hosts, i + 1, |retried|, AfterHost(met, hosts[i]), 0, ok)
  {
    TurnStep(file0, file, hosts, i, |retried|, met, again);
    RegisterOne(hosts, i, table);
  }

  lemma LoopEnds(file0: File, file: File, hosts: seq<Host>, i: nat, retried: seq<nat>, table: map<string, Host>,
                 met: File, again: nat, ok: bool)
    requires Looping(file0, file, hosts, i, retried, table, met, again, ok)
    ensures forall m :: 0 <= m < |retried| ==> retried[m] < |hosts|
    ensures Kept(file0, file, hosts, retried) && Elsewhere(file, hosts) == Elsewhere(file0, hosts)
    ensures !ok || i == |hosts| ==>
              Ends(file0, hosts, 0) && (ok <==> forall j :: 0 <= j < |hosts| ==> hosts[j].aliases != [])
    ensures ok && i == |hosts| ==> table == Table(hosts)
    ensures ok && i == |hosts| && Independent(file0, hosts) ==> AllServed(file, hosts)
    ensures ok && i < |hosts| && i + |retried| >= 2 * |hosts| ==> !Ends(file0, hosts, 0) && !AllPlain(file0, hosts)
    ensures AllPlain(file0, hosts) ==>
              |retried| <= |hosts| && forall m, n :: 0 <= m < n < |retried| ==> retried[m] < retried[n]
  {
    if !ok || i == |hosts| { RegisteredAll(hosts, i, table, ok); }
    TurnEnds(file0, file, hosts, i, |retried|, met, again, ok);
    if AllPlain(file0, hosts) { ReconciledSoFar(file0, file, hosts, i, retried); }
  }

  /* ---------- when the loop ends ---------- */

  /** Retrying the host does not help: the rewritten file still mismatches one of its keys. */
  predicate Stuck(file: File, h: Host) {
    Pass(file, h).1 && AnyMismatch(Matching(Without(file, h.hostname), h.hostname), h.keys)
  }

  /** The file when a host that is not stuck is done with. */
  function AfterHost(file: File, h: Host): File {
    if Pass(file, h).1 then Pass(Without(file, h.hostname), h).0 else Pass(file, h).0
  }

  /** No host is stuck on the file it meets at its turn, up to the first without an alias. */
  predicate Ends(file: File, hosts: seq<Host>, i: nat)
    decreases |hosts| - i
  {
    i >= |hosts| ||
    (!Stuck(file, hosts[i]) && (hosts[i].aliases == [] || Ends(AfterHost(file, hosts[i]), hosts, i + 1)))
  }

  /** Host `i` met the file `met` and has been retried `again` times since. */
  ghost predicate AtTurn(file: File, hosts: seq<Host>, i: nat, met: File, again: nat) {
    && (again == 0 ==> file == met)
    && (again > 0 ==> i < |hosts| && Pass(met, hosts[i]).1 && file == Without(met, hosts[i].hostname))
    && (again > 1 ==> i < |hosts| && Stuck(met, hosts[i]))
  }

  /** The loop has come to host `i` after `n` retries; without `ok` it has returned. */
  ghost predicate InTurn(file0: File, file: File, hosts: seq<Host>, i: nat, n: nat, met: File, again: nat, ok: bool) {
    && n <= i + again
    && if ok then AtTurn(file, hosts, i, met, again) && (Ends(file0, hosts, 0) <==> Ends(met, hosts, i))
       else Ends(file0, hosts, 0)
  }

  lemma TurnStep(file0: File, file: File, hosts: seq<Host>, i: nat, n: nat, met: File, again: nat)
    requires i < |hosts| && InTurn(file0, file, hosts, i, n, met, again, true)
    ensures var (file', retry) := Pass(file, hosts[i]);
            if retry then InTurn(file0, file', hosts, i, n + 1, met, again + 1, true)
            else InTurn(file0, file', hosts, i + 1, n, AfterHost(met, hosts[i]), 0, hosts[i].aliases != [])
  {
    WithoutTwice(met, hosts[i].hostname);
  }

  lemma TurnEnds(file0: File, file: File, hosts: seq<Host>, i: nat, n: nat, met: File, again: nat, ok: bool)
    requires InTurn(file0, file, hosts, i, n, met, again, ok) && i <= |hosts|
    ensures !ok || i == |hosts| ==> Ends(file0, hosts, 0)
    ensures ok && i < |hosts| && i + n >= 2 * |hosts| ==> !Ends(file0, hosts, 0)
  {
  }

  /** In a plain file no host is stuck, now or later. */
  lemma {:induction false} PlainEnds(file: File, hosts: seq<Host>, i: nat)
    requires AllPlain(file, hosts)
    ensures Ends(file, hosts, i)
    decreases |hosts| - i
  {
    if i < |hosts| {
      var h := hosts[i];
      WithoutForgets(file, h.hostname);
      var file' := AfterHost(file, h);
      forall j | 0 <= j < |hosts| ensures PlainFor(file', hosts[j].hostname) {
        PassStaysPlain(file, h, hosts[j].hostname);
        PassStaysPlain(Pass(file, h).0, h, hosts[j].hostname);
      }
      PlainEnds(file', hosts, i + 1);
    }
  }

  /* ---------- which lines are lost ---------- */

  /** A line the code itself writes for one of the hosts. */
  ghost predicate IsNewLine(line: Line, hosts: seq<Host>) {
    exists j :: 0 <= j < |hosts| && line in NewLines(hosts[j].hostname, hosts[j].keys)
  }

  /** The line is not blank and mentions none of the retried hosts. */
  ghost predicate Spared(line: Line, hosts: seq<Host>, retried: seq<nat>) {
    && line.text != ""
    && forall m :: 0 <= m < |retried| && retried[m] < |hosts| ==> !Contains(line.text, hosts[retried[m]].hostname)
  }

  /** Of the lines the code does not write itself, exactly those of the old file are left
      that were spared by every retry; all of them if there was none. */
  ghost predicate Kept(file0: File, file: File, hosts: seq<Host>, retried: seq<nat>) {
    forall line :: LineKept(file0, file, hosts, retried, line)
  }

  ghost predicate LineKept(file0: File, file: File, hosts: seq<Host>, retried: seq<nat>, line: Line) {
    !IsNewLine(line, hosts) ==>
      (line in file <==> line in file0 && (retried == [] || Spared(line, hosts, retried)))
  }

  lemma {:induction false} WithoutAre(file: File, addr: string, line: Line)
    ensures line in Without(file, addr) <==> line in file && line.text != "" && !Contains(line.text, addr)
  {
    if file != [] {
      WithoutAre(file[1..], addr, line);
      assert file == [file[0]] + file[1..];
    }
  }

  /** One pass loses a line exactly when a key mismatches and the line is blank or mentions
      the address, be it a line of that host or of another. */
  lemma PassLosesExactly(file: File, h: Host, line: Line)
    requires line in file
    ensures line !in Pass(file, h).0 <==>
              && (exists key :: key in h.keys && Validate(file, h.hostname, key) == Mismatch)
              && (line.text == "" || exists i: nat :: OccursAt(line.text, h.hostname, i))
  {
    WithoutAre(file, h.hostname, line);
    ContainsExactly(line.text, h.hostname);
    if key :| key in h.keys && Validate(file, h.hostname, key) == Mismatch {
      var n :| 0 <= n < |h.keys| && h.keys[n] == key;
      assert AnyMismatch(Matching(file, h.hostname), h.keys);
    }
    if AnyMismatch(Matching(file, h.hostname), h.keys) {
      var n :| 0 <= n < |h.keys| && Check(Matching(file, h.hostname), h.keys[n]) == Mismatch;
      assert Validate(file, h.hostname, h.keys[n]) == Mismatch;
    }
  }

  /** One pass adds a line exactly when no line matches the host, and then one for each key. */
  lemma PassGainsExactly(file: File, h: Host, line: Line)
    requires line !in file
    ensures line in Pass(file, h).0 <==>
              && (forall i :: 0 <= i < |file| ==> !Matches(file[i], h.hostname))
              && exists key :: key in h.keys
                               && line == Entry(h.hostname + " " + key.typ + " " + key.blob, {h.hostname}, key)
  {
    FirstForExactly(file, h.hostname, Key("", ""));
    WithoutAre(file, h.hostname, line);
    var lines := NewLines(h.hostname, h.keys);
    if line in lines {
      var n :| 0 <= n < |lines| && lines[n] == line;
      assert h.keys[n] in h.keys;
    }
    if key :| key in h.keys && line == NewLine(h.hostname, key) {
      var n :| 0 <= n < |h.keys| && h.keys[n] == key;
      assert lines[n] == line;
    }
  }

  lemma PassKeepsLines(file0: File, file: File, hosts: seq<Host>, i: nat, retried: seq<nat>)
    requires i < |hosts| && Kept(file0, file, hosts, retried)
    ensures var (file', retry) := Pass(file, hosts[i]);
            Kept(file0, file', hosts, if retry then retried + [i] else retried)
  {
    var h := hosts[i];
    var (file', retry) := Pass(file, h);
    var retried' := if retry then retried + [i] else retried;
    forall line ensures LineKept(file0, file', hosts, retried', line) {
      assert LineKept(file0, file, hosts, retried, line);
      if retry {
        WithoutAre(file, h.hostname, line);
        SparedStep(line, hosts, retried, i);
      } else if line in NewLines(h.hostname, h.keys) {
        assert IsNewLine(line, hosts);
      }
    }
  }

  lemma SparedStep(line: Line, hosts: seq<Host>, retried: seq<nat>, i: nat)
    requires i < |hosts|
    ensures Spared(line, hosts, retried + [i]) <==>
              Spared(line, hosts, retried) && !Contains(line.text, hosts[i].hostname)
  {
    var retried' := retried + [i];
    assert retried'[|retried|] == i;
    forall m | 0 <= m < |retried| ensures retried'[m] == retried[m] {}
    if Spared(line, hosts, retried') {
      forall m | 0 <= m < |retried| && retried[m] < |hosts| ensures !Contains(line.text, hosts[retried[m]].hostname) {
        assert retried'[m] == retried[m];
      }
    }
  }

  /** The host table once the first `i` hosts are done; without an alias the loop ends. */
  ghost predicate Registered(hosts: seq<Host>, i: nat, table: map<string, Host>, ok: bool) {
    && i <= |hosts| && (!ok ==> i > 0)
    && (forall j :: 0 <= j < (if ok then i else i - 1) ==> hosts[j].aliases != [])
    && (if ok then table == Table(hosts[..i]) else hosts[i - 1].aliases == [])
  }

  lemma RegisterOne(hosts: seq<Host>, i: nat, table: map<string, Host>)
    requires i < |hosts| && Registered(hosts, i, table, true)
    ensures if hosts[i].aliases == [] then Registered(hosts, i + 1, table, false)
            else Registered(hosts, i + 1, table[hosts[i].aliases[0] := hosts[i]], true)
  {
    assert hosts[..i + 1][..i] == hosts[..i];
  }

  lemma RegisteredAll(hosts: seq<Host>, i: nat, table: map<string, Host>, ok: bool)
    requires Registered(hosts, i, table, ok) && (ok ==> i == |hosts|)
    ensures ok <==> forall j :: 0 <= j < |hosts| ==> hosts[j].aliases != []
    ensures ok ==> table == Table(hosts)
  {
    assert hosts[..|hosts|] == hosts;
  }

  /** The invariant of the host loop. A host is retried at most once: afterwards the file
      holds no entry for it. */
  ghost predicate Reconciled(file0: File, file: File, hosts: seq<Host>, i: nat, retried: seq<nat>) {
    && i <= |hosts|
    && AllPlain(file, hosts)
    && Increasing(retried, if i < |hosts| && Matching(file, hosts[i].hostname) == [] then i + 1 else i)
    && (Independent(file0, hosts) ==> Independent(file, hosts) && DoneUpTo(file, hosts, i))
  }

  lemma PassReconciles(file0: File, file: File, hosts: seq<Host>, i: nat, retried: seq<nat>)
    requires i < |hosts| && Reconciled(file0, file, hosts, i, retried)
    ensures var (file', retry) := Pass(file, hosts[i]);
            if retry then
              Matching(file, hosts[i].hostname) != [] && Matching(file', hosts[i].hostname) == []
              && Reconciled(file0, file', hosts, i, retried + [i])
            else Reconciled(file0, file', hosts, i + 1, retried)
  {
    var file' := Pass(file, hosts[i]).0;
    forall j | 0 <= j < |hosts| ensures PlainFor(file', hosts[j].hostname) {
      PassStaysPlain(file, hosts[i], hosts[j].hostname);
    }
    if Independent(file0, hosts) { PassServes(file, hosts, i); }
    WithoutForgets(file, hosts[i].hostname);
  }

  lemma ReconciledSoFar(file0: File, file: File, hosts: seq<Host>, i: nat, retried: seq<nat>)
    requires Reconciled(file0, file, hosts, i, retried)
    ensures forall m, n :: 0 <= m < n < |retried| ==> retried[m] < retried[n] < |hosts|
    ensures |retried| <= |hosts| && (i < |hosts| ==> i + |retried| < 2 * |hosts|)
    ensures i == |hosts| && Independent(file0, hosts) ==> AllServed(file, hosts)
  {
    if i == |hosts| && Independent(file0, hosts) {
      forall h, key | h in hosts && key in h.keys ensures Validate(file, h.hostname, key) == Valid {
        var j :| 0 <= j < |hosts| && hosts[j] == h;
        assert Served(file, hosts[j]);
      }
    }
  }

  /** Every tagged key of every host validates. */
  ghost predicate AllServed(file: File, hosts: seq<Host>) {
    forall h, key :: h in hosts && key in h.keys ==> Validate(file, h.hostname, key) == Valid
  }

  /** The SSH host table keyed by first alias. */
  function Table(hosts: seq<Host>): map<string, Host> {
    if hosts == [] then map[]
    else
      var h := hosts[|hosts| - 1];
      if h.aliases == [] then Table(hosts[..|hosts| - 1]) else Table(hosts[..|hosts| - 1])[h.aliases[0] := h]
  }

  predicate FirstAlias(h: Host, alias: string) {
    h.aliases != [] && h.aliases[0] == alias
  }

  /** The table has an alias exactly if it is some host's first, and then the last such host. */
  lemma {:induction false} TableExactly(hosts: seq<Host>, alias: string)
    ensures alias in Table(hosts) <==> exists i :: 0 <= i < |hosts| && FirstAlias(hosts[i], alias)
    ensures forall i :: 0 <= i < |hosts| && FirstAlias(hosts[i], alias)
                        && (forall j :: i < j < |hosts| ==> !FirstAlias(hosts[j], alias)) ==>
              alias in Table(hosts) && Table(hosts)[alias] == hosts[i]
  {
    if hosts != [] {
      var n := |hosts| - 1;
      TableExactly(hosts[..n], alias);
      assert forall i :: 0 <= i < n ==> hosts[..n][i] == hosts[i];
    }
  }

  ghost predicate Increasing(s: seq<nat>, bound: nat) {
    |s| <= bound && (forall i, j :: 0 <= i < j < |s| ==> s[i] < s[j]) && forall i :: 0 <= i < |s| ==> s[i] < bound
  }

  /* ---------- what the file is assumed and shown to hold ---------- */

  /** Lines that match the address mention it. */
  ghost predicate PlainFor(file: File, addr: string) {
    forall n :: 0 <= n < |file| && Matches(file[n], addr) ==> file[n].text != "" && Contains(file[n].text, addr)
  }

  /** No line that matches `a` mentions `b`. */
  ghost predicate LinesApart(file: File, a: string, b: string) {
    forall n :: 0 <= n < |file| && Matches(file[n], a) ==> !Contains(file[n].text, b)
  }

  /** The hosts do not get in each other's way: no host's lines, present or to be added,
      mention another host, and no host has two keys of one type. */
  ghost predicate Independent(file: File, hosts: seq<Host>) {
    && (forall i, j :: 0 <= i < |hosts| && 0 <= j < |hosts| && i != j ==>
          && hosts[i].hostname != hosts[j].hostname
          && LinesApart(file, hosts[i].hostname, hosts[j].hostname)
          && LinesApart(NewLines(hosts[i].hostname, hosts[i].keys), hosts[i].hostname, hosts[j].hostname))
    && (forall i :: 0 <= i < |hosts| ==> PlainFor(file, hosts[i].hostname) && OnePerType(hosts[i].keys))
  }

  ghost predicate OnePerType(keys: seq<Key>) {
    forall i, j :: 0 <= i < j < |keys| ==> keys[i].typ != keys[j].typ
  }

  ghost predicate Served(file: File, h: Host) {
    forall key :: key in h.keys ==> Validate(file, h.hostname, key) == Valid
  }

  ghost predicate DoneUpTo(file: File, hosts: seq<Host>, i: nat) {
    forall j :: 0 <= j < i && j < |hosts| ==> Served(file, hosts[j])
  }

  /** The non-blank lines that mention none of the hosts, in order. */
  ghost function Elsewhere(file: File, hosts: seq<Host>): File {
    if file == [] then []
    else (if IsElsewhere(file[0], hosts) then [file[0]] else []) + Elsewhere(file[1..], hosts)
  }

  ghost predicate IsElsewhere(line: Line, hosts: seq<Host>) {
    line.text != "" && forall h :: h in hosts ==> !Contains(line.text, h.hostname)
  }

  /* ---------- lists of lines ---------- */

  lemma {:induction false} MatchingConcat(a: File, b: File, addr: string)
    ensures Matching(a + b, addr) == Matching(a, addr) + Matching(b, addr)
  {
    if a == [] {
      assert a + b == b;
    } else {
      assert (a + b)[0] == a[0] && (a + b)[1..] == a[1..] + b;
      MatchingConcat(a[1..], b, addr);
      var first := if Matches(a[0], addr) then [a[0].key] else [];
      var rest, last := Matching(a[1..], addr), Matching(b, addr);
      assert first + (rest + last) == (first + rest) + last;
    }
  }

  lemma {:induction false} ElsewhereConcat(a: File, b: File, hosts: seq<Host>)
    ensures Elsewhere(a + b, hosts) == Elsewhere(a, hosts) + Elsewhere(b, hosts)
  {
    if a == [] {
      assert a + b == b;
    } else {
      assert (a + b)[0] == a[0] && (a + b)[1..] == a[1..] + b;
      ElsewhereConcat(a[1..], b, hosts);
      var first := if IsElsewhere(a[0], hosts) then [a[0]] else [];
      var rest, last := Elsewhere(a[1..], hosts), Elsewhere(b, hosts);
      assert Elsewhere(a + b, hosts) == first + (rest + last) == (first + rest) + last;
    }
  }

  lemma NewLineMentions(addr: string, key: Key)
    ensures Contains(NewLine(addr, key).text, addr)
  {
    assert addr <= NewLine(addr, key).text;
  }

  lemma {:induction false} MatchingNew(addr: string, keys: seq<Key>)
    ensures Matching(NewLines(addr, keys), addr) == keys
    decreases |keys|
  {
    if keys != [] {
      assert NewLines(addr, keys)[1..] == NewLines(addr, keys[1..]);
      MatchingNew(addr, keys[1..]);
    }
  }

  lemma {:induction false} MatchingOther(addr: string, keys: seq<Key>, other: string)
    requires other != addr
    ensures Matching(NewLines(addr, keys), other) == []
    decreases |keys|
  {
    if keys != [] {
      assert NewLines(addr, keys)[1..] == NewLines(addr, keys[1..]);
      MatchingOther(addr, keys[1..], other);
    }
  }

  lemma {:induction false} NewLinesNotElsewhere(hosts: seq<Host>, h: Host, keys: seq<Key>)
    requires h in hosts
    ensures Elsewhere(NewLines(h.hostname, keys), hosts) == []
    decreases |keys|
  {
    if keys != [] {
      NewLineMentions(h.hostname, keys[0]);
      assert NewLines(h.hostname, keys)[1..] == NewLines(h.hostname, keys[1..]);
      NewLinesNotElsewhere(hosts, h, keys[1..]);
    }
  }

  lemma {:induction false} WithoutKeepsElsewhere(file: File, hosts: seq<Host>, h: Host)
    requires h in hosts
    ensures Elsewhere(Without(file, h.hostname), hosts) == Elsewhere(file, hosts)
  {
    if file != [] {
      WithoutKeepsElsewhere(file[1..], hosts, h);
      var rest := Without(file[1..], h.hostname);
      if file[0].text != "" && !Contains(file[0].text, h.hostname) {
        ElsewhereConcat([file[0]], rest, hosts);
        assert [file[0]][1..] == [];
      } else {
        assert Without(file, h.hostname) == rest;
      }
    }
  }

  /** Removing the lines that mention one host leaves the entries of another. */
  lemma {:induction false} WithoutKeepsOther(file: File, a: string, b: string)
    requires LinesApart(file, a, b) && PlainFor(file, a)
    ensures Matching(Without(file, b), a) == Matching(file, a)
  {
    if file != [] {
      var rest := Without(file[1..], b);
      assert forall n :: 0 <= n < |file| - 1 ==> file[1..][n] == file[n + 1];
      WithoutKeepsOther(file[1..], a, b);
      if file[0].text != "" && !Contains(file[0].text, b) {
        MatchingConcat([file[0]], rest, a);
        assert [file[0]][1..] == [];
      } else {
        assert Without(file, b) == rest;
      }
    }
  }

  /** Removing the lines that mention a host removes, if the file is plain, all its entries. */
  lemma {:induction false} WithoutForgets(file: File, a: string)
    requires PlainFor(file, a)
    ensures Matching(Without(file, a), a) == []
  {
    if file != [] {
      var rest := Without(file[1..], a);
      assert forall n :: 0 <= n < |file| - 1 ==> file[1..][n] == file[n + 1];
      WithoutForgets(file[1..], a);
      if file[0].text != "" && !Contains(file[0].text, a) {
        MatchingConcat([file[0]], rest, a);
        assert [file[0]][1..] == [];
      } else {
        assert Without(file, a) == rest;
      }
    }
  }

  lemma {:induction false} WithoutIsSub(file: File, a: string)
    ensures forall n :: 0 <= n < |Without(file, a)| ==> Without(file, a)[n] in file
  {
    if file != [] { WithoutIsSub(file[1..], a); }
  }

  lemma {:induction false} FirstOfTypeIs(keys: seq<Key>, n: nat)
    requires n < |keys| && OnePerType(keys)
    ensures FirstOfType(keys, keys[n].typ) == Some(keys[n])
  {
    if n > 0 {
      assert keys[0].typ != keys[n].typ && keys[1..][n - 1] == keys[n];
      assert forall i, j :: 0 <= i < j < |keys| - 1 ==> keys[1..][i].typ != keys[1..][j].typ;
      FirstOfTypeIs(keys[1..], n - 1);
    }
  }

  /* ---------- what a pass does ---------- */

  lemma PassKeepsElsewhere(file: File, hosts: seq<Host>, i: nat)
    requires i < |hosts|
    ensures Elsewhere(Pass(file, hosts[i]).0, hosts) == Elsewhere(file, hosts)
  {
    var h := hosts[i];
    var lines := NewLines(h.hostname, h.keys);
    if Matching(file, h.hostname) == [] {
      ElsewhereConcat(file, lines, hosts);
      NewLinesNotElsewhere(hosts, h, h.keys);
    } else {
      WithoutKeepsElsewhere(file, hosts, h);
    }
  }

  lemma PassStaysPlain(file: File, h: Host, addr: string)
    requires PlainFor(file, addr)
    ensures PlainFor(Pass(file, h).0, addr)
  {
    WithoutIsSub(file, h.hostname);
    forall n | 0 <= n < |h.keys| ensures Contains(NewLine(h.hostname, h.keys[n]).text, h.hostname) {
      NewLineMentions(h.hostname, h.keys[n]);
    }
  }

  lemma PassStaysApart(file: File, h: Host, a: string, b: string)
    requires LinesApart(file, a, b) && (a == h.hostname ==> LinesApart(NewLines(a, h.keys), a, b))
    ensures LinesApart(Pass(file, h).0, a, b)
  {
    WithoutIsSub(file, h.hostname);
    var file' := Pass(file, h).0;
    var lines := NewLines(h.hostname, h.keys);
    forall n | 0 <= n < |file'| && Matches(file'[n], a) ensures !Contains(file'[n].text, b) {
      if file' == file + lines && n >= |file| {
        assert file'[n] == lines[n - |file|];
      } else {
        assert file'[n] in file;
      }
    }
  }

  /** A pass that does not end in a retry leaves the host's keys valid; the hosts already
      done stay so. */
  lemma PassServes(file: File, hosts: seq<Host>, i: nat)
    requires i < |hosts| && Independent(file, hosts) && DoneUpTo(file, hosts, i)
    ensures var (file', retry) := Pass(file, hosts[i]);
            Independent(file', hosts) && DoneUpTo(file', hosts, if retry then i else i + 1)
  {
    var h := hosts[i];
    var (file', retry) := Pass(file, h);
    forall a, b | 0 <= a < |hosts| && 0 <= b < |hosts| && a != b
      ensures LinesApart(file', hosts[a].hostname, hosts[b].hostname)
    {
      PassStaysApart(file, h, hosts[a].hostname, hosts[b].hostname);
    }
    forall a | 0 <= a < |hosts| ensures PlainFor(file', hosts[a].hostname) {
      PassStaysPlain(file, h, hosts[a].hostname);
    }
    forall j | 0 <= j < i ensures Served(file', hosts[j]) {
      OtherHostStays(file, hosts, i, j);
    }
    if !retry { PassServesHost(file, h); }
  }

  lemma OtherHostStays(file: File, hosts: seq<Host>, i: nat, j: nat)
    requires i < |hosts| && j < |hosts| && i != j && Independent(file, hosts) && Served(file, hosts[j])
    ensures Served(Pass(file, hosts[i]).0, hosts[j])
  {
    var a, b := hosts[j].hostname, hosts[i].hostname;
    assert LinesApart(file, a, b) && PlainFor(file, a);
    WithoutKeepsOther(file, a, b);
    MatchingConcat(file, NewLines(b, hosts[i].keys), a);
    MatchingOther(b, hosts[i].keys, a);
    assert Matching(Pass(file, hosts[i]).0, a) == Matching(file, a);
  }

  lemma PassServesHost(file: File, h: Host)
    requires OnePerType(h.keys) && !Pass(file, h).1
    ensures Served(Pass(file, h).0, h)
  {
    var known := Matching(file, h.hostname);
    if known == [] {
      MatchingConcat(file, NewLines(h.hostname, h.keys), h.hostname);
      MatchingNew(h.hostname, h.keys);
      assert Matching(Pass(file, h).0, h.hostname) == h.keys;
      forall key | key in h.keys ensures Check(h.keys, key) == Valid { OwnKeyIsValid(h.keys, key); }
    } else {
      forall key | key in h.keys ensures Check(known, key) == Valid {
        var n :| 0 <= n < |h.keys| && h.keys[n] == key;
        assert Check(known, h.keys[n]) != Mismatch;
      }
    }
  }

  lemma OwnKeyIsValid(keys: seq<Key>, key: Key)
    requires key in keys && OnePerType(keys)
    ensures Check(keys, key) == Valid
  {
    var n :| 0 <= n < |keys| && keys[n] == key;
    FirstOfTypeIs(keys, n);
  }

  /* ---------- when the retries end ---------- */

  lemma {:induction false} WithoutTwice(file: File, a: string)
    ensures Without(Without(file, a), a) == Without(file, a)
  {
    if file != [] {
      WithoutTwice(file[1..], a);
      var rest := Without(file[1..], a);
      if file[0].text != "" && !Contains(file[0].text, a) {
        assert ([file[0]] + rest)[1..] == rest;
      } else {
        assert Without(file, a) == rest;
      }
    }
  }

  function PassTimes(file: File, h: Host, n: nat): (File, bool) {
    if n == 0 then (file, true) else Pass(PassTimes(file, h, n - 1).0, h)
  }

  /** A host is retried for ever if and only if, among the lines that match it without
      mentioning it, there are some and one of its keys mismatches them; otherwise one
      retry is enough. In a plain file there are no such lines. */
  lemma RetriesForEver(file: File, h: Host)
    requires Pass(file, h).1
    ensures Stuck(file, h) ==> forall n :: n >= 1 ==> PassTimes(file, h, n) == (Without(file, h.hostname), true)
    ensures !Stuck(file, h) ==> !PassTimes(file, h, 2).1
    ensures PlainFor(file, h.hostname) ==> !Stuck(file, h)
  {
    if Stuck(file, h) {
      forall n | n >= 1 ensures PassTimes(file, h, n) == (Without(file, h.hostname), true) { RetriesAgain(file, h, n); }
    }
    assert PassTimes(file, h, 1) == Pass(file, h);
    assert PassTimes(file, h, 2) == Pass(PassTimes(file, h, 1).0, h);
    if PlainFor(file, h.hostname) { WithoutForgets(file, h.hostname); }
  }

  lemma {:induction false} RetriesAgain(file: File, h: Host, n: nat)
    requires Stuck(file, h) && n >= 1
    ensures PassTimes(file, h, n) == (Without(file, h.hostname), true)
  {
    WithoutTwice(file, h.hostname);
    if n > 1 { RetriesAgain(file, h, n - 1); }
  }

  /** For example, a mismatch for 10.0.0.1 also drops the line of 10.0.0.11. */
  lemma ForeignLineLost()
    ensures var foreign := Entry("10.0.0.11 rsa b", {"10.0.0.11"}, Key("rsa", "b"));
            var file := [Entry("10.0.0.1 rsa a", {"10.0.0.1"}, Key("rsa", "a")), foreign];
            Pass(file, Host("10.0.0.1", [Key("rsa", "c")], ["node"])) == ([], true)
  {
    var own := Entry("10.0.0.1 rsa a", {"10.0.0.1"}, Key("rsa", "a"));
    var foreign := Entry("10.0.0.11 rsa b", {"10.0.0.11"}, Key("rsa", "b"));
    assert "10.0.0.1" <= own.text && "10.0.0.1" <= foreign.text;
    assert [own, foreign][1..] == [foreign] && [foreign][1..] == [];
    assert |"10.0.0.1"| != |"10.0.0.11"| && Matching([foreign], "10.0.0.1") == [];
    assert Matching([own, foreign], "10.0.0.1") == [own.key];
    assert [own.key][1..] == [];
    assert Without([foreign], "10.0.0.1") == [];
    assert Without([own, foreign], "10.0.0.1") == [];
    assert Check([own.key], [Key("rsa", "c")][0]) == Mismatch;
  }
}
