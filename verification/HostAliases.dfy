/** The aliases of a cluster's hosts: role and number, without the number for a single host. */
module HostAliases {
  import opened Text
  import KnownHosts

  /** `roles[h]` are the roles of host `h`; aliases have the same shape. */
  type Rows = seq<seq<string>>

  predicate At(rows: Rows, h: int, r: int) {
    0 <= h < |rows| && 0 <= r < |rows[h]|
  }

  function Numbered(role: string, k: nat): string {
    role + "-" + Decimal(k)
  }

  /* ---------- counting ---------- */

  function CountIn(row: seq<string>, role: string): nat {
    if row == [] then 0 else CountIn(row[..|row| - 1], role) + (if row[|row| - 1] == role then 1 else 0)
  }

  function Total(roles: Rows, role: string): nat {
    if roles == [] then 0 else Total(roles[..|roles| - 1], role) + CountIn(roles[|roles| - 1], role)
  }

  /** The number of the occurrence of a role at `(h, r)`, counting from 1. */
  function Index(roles: Rows, h: nat, r: nat): nat
    requires At(roles, h, r)
  {
    Total(roles[..h], roles[h][r]) + CountIn(roles[h][..r + 1], roles[h][r])
  }

  predicate Single(roles: Rows, role: string) {
    Total(roles, role) == 1
  }

  lemma {:induction false} CountInGrows(row: seq<string>, a: nat, b: nat, role: string)
    requires a <= b <= |row|
    ensures CountIn(row[..a], role) <= CountIn(row[..b], role)
    ensures a < b && row[b - 1] == role ==> CountIn(row[..a], role) < CountIn(row[..b], role)
    decreases b
  {
    if a < b {
      assert row[..b][..b - 1] == row[..b - 1];
      CountInGrows(row, a, b - 1, role);
    }
  }

  lemma {:induction false} TotalGrows(roles: Rows, a: nat, b: nat, role: string)
    requires a <= b <= |roles|
    ensures Total(roles[..a], role) <= Total(roles[..b], role)
    decreases b
  {
    if a < b {
      assert roles[..b][..b - 1] == roles[..b - 1];
      TotalGrows(roles, a, b - 1, role);
    }
  }

  lemma TotalStep(roles: Rows, h: nat, role: string)
    requires h < |roles|
    ensures Total(roles[..h + 1], role) == Total(roles[..h], role) + CountIn(roles[h], role)
  {
    assert roles[..h + 1][..h] == roles[..h];
  }

  lemma IndexBounds(roles: Rows, h: nat, r: nat)
    requires At(roles, h, r)
    ensures Total(roles[..h], roles[h][r]) < Index(roles, h, r) <= Total(roles[..h + 1], roles[h][r])
    ensures Total(roles[..h + 1], roles[h][r]) <= Total(roles, roles[h][r])
  {
    var role := roles[h][r];
    assert roles[h][..|roles[h]|] == roles[h] && roles[..|roles|] == roles;
    CountInGrows(roles[h], r, r + 1, role);
    CountInGrows(roles[h], r + 1, |roles[h]|, role);
    TotalStep(roles, h, role);
    TotalGrows(roles, h + 1, |roles|, role);
  }

  /** Occurrences of one role have different numbers. */
  lemma IndexInjective(roles: Rows, h: nat, r: nat, h': nat, r': nat)
    requires At(roles, h, r) && At(roles, h', r') && roles[h][r] == roles[h'][r'] && (h, r) != (h', r')
    ensures Index(roles, h, r) != Index(roles, h', r')
  {
    var role := roles[h][r];
    IndexBounds(roles, h, r);
    IndexBounds(roles, h', r');
    if h < h' {
      TotalGrows(roles, h + 1, h', role);
    } else if h' < h {
      TotalGrows(roles, h' + 1, h, role);
    } else if r < r' {
      CountInGrows(roles[h], r + 1, r' + 1, role);
    } else {
      CountInGrows(roles[h], r' + 1, r + 1, role);
    }
  }

  /** Every number from 1 to the total is given. */
  lemma {:induction false} NoGaps(roles: Rows, role: string, k: nat) returns (h: nat, r: nat)
    requires 1 <= k <= Total(roles, role)
    ensures At(roles, h, r) && roles[h][r] == role && Index(roles, h, r) == k
  {
    var n := |roles| - 1;
    if k <= Total(roles[..n], role) {
      h, r := NoGaps(roles[..n], role, k);
      assert roles[..n][..h] == roles[..h];
    } else {
      h := n;
      r := NoGapsInRow(roles[n], role, k - Total(roles[..n], role));
    }
  }

  lemma {:induction false} NoGapsInRow(row: seq<string>, role: string, k: nat) returns (r: nat)
    requires 1 <= k <= CountIn(row, role)
    ensures r < |row| && row[r] == role && CountIn(row[..r + 1], role) == k
  {
    var n := |row| - 1;
    assert row[..n + 1] == row;
    if k <= CountIn(row[..n], role) {
      r := NoGapsInRow(row[..n], role, k);
      assert row[..n][..r + 1] == row[..r + 1];
    } else {
      r := n;
    }
  }

  /* ---------- what the two loops compute ---------- */

  /** The aliases after the first loop. */
  function Start(roles: Rows): Rows {
    seq(|roles|, h requires 0 <= h < |roles| =>
      seq(|roles[h]|, r requires 0 <= r < |roles[h]| => Numbered(roles[h][r], Index(roles, h, r))))
  }

  function Renamed(row: seq<string>, role: string): seq<string> {
    seq(|row|, i requires 0 <= i < |row| => if row[i] == Numbered(role, 1) then role else row[i])
  }

  /** One turn of the second loop. */
  function Visit(roles: Rows, aliases: Rows, role: string): Rows
    requires |aliases| == |roles|
  {
    seq(|roles|, h requires 0 <= h < |roles| =>
      if Single(roles, role) && role in roles[h] then Renamed(aliases[h], role) else aliases[h])
  }

  /** The second loop, visiting the roles in the given order. */
  function Visits(roles: Rows, order: seq<string>): (aliases: Rows)
    ensures |aliases| == |roles| && forall h :: 0 <= h < |roles| ==> |aliases[h]| == |roles[h]|
  {
    if order == [] then Start(roles)
    else Visit(roles, Visits(roles, order[..|order| - 1]), order[|order| - 1])
  }

  ghost predicate Has(roles: Rows, role: string) {
    exists h, r :: At(roles, h, r) && roles[h][r] == role
  }

  /** Each role once: the order in which Go visits the keys of a map is not specified. */
  ghost predicate IsOrder(roles: Rows, order: seq<string>) {
    && (forall i, j :: 0 <= i < j < |order| ==> order[i] != order[j])
    && (forall role :: role in order <==> Has(roles, role))
  }

  lemma {:induction false} TotalPositive(roles: Rows, role: string)
    ensures Total(roles, role) > 0 <==> Has(roles, role)
  {
    if Total(roles, role) > 0 {
      var h, r := NoGaps(roles, role, 1);
    }
    if Has(roles, role) {
      var h, r :| At(roles, h, r) && roles[h][r] == role;
      IndexBounds(roles, h, r);
    }
  }

  /** A single role is at one place. */
  lemma SingleAtOnePlace(roles: Rows, h: nat, r: nat, h': nat, r': nat)
    requires At(roles, h, r) && At(roles, h', r') && roles[h][r] == roles[h'][r'] && Single(roles, roles[h][r])
    ensures h == h' && r == r' && Index(roles, h, r) == 1
  {
    IndexBounds(roles, h, r);
    IndexBounds(roles, h', r');
    if (h, r) != (h', r') { IndexInjective(roles, h, r, h', r'); }
  }

  /* ---------- the intended aliases ---------- */

  /** The role itself where it is the only one, else the role and its number. */
  function FinalAlias(roles: Rows, h: nat, r: nat): string
    requires At(roles, h, r)
  {
    if Single(roles, roles[h][r]) then roles[h][r] else Numbered(roles[h][r], Index(roles, h, r))
  }

  function Final(roles: Rows): Rows {
    seq(|roles|, h requires 0 <= h < |roles| =>
      seq(|roles[h]|, r requires 0 <= r < |roles[h]| => FinalAlias(roles, h, r)))
  }

  /** The intended aliases of a role, as texts: the role itself if it is the only one, and
      otherwise the role, a dash and each number from 1 to their count. */
  lemma FinalTexts(roles: Rows, role: string, k: nat) returns (h: nat, r: nat)
    requires 1 <= k <= Total(roles, role)
    ensures At(roles, h, r) && roles[h][r] == role
    ensures Final(roles)[h][r] == if Total(roles, role) == 1 then role else role + "-" + Decimal(k)
  {
    h, r := NoGaps(roles, role, k);
  }

  /** One host has the single roles `x` (at `r`) and `x-1` (at `r'`). */
  predicate Overlap(roles: Rows, h: int, r: int, r': int) {
    && At(roles, h, r) && At(roles, h, r')
    && Single(roles, roles[h][r]) && Single(roles, roles[h][r'])
    && roles[h][r'] == Numbered(roles[h][r], 1)
  }

  ghost predicate NoOverlap(roles: Rows) {
    forall h, r, r' :: !Overlap(roles, h, r, r')
  }

  function Shortened(roles: Rows, order: seq<string>, h: nat, r: nat): string
    requires At(roles, h, r)
  {
    if roles[h][r] in order then FinalAlias(roles, h, r) else Numbered(roles[h][r], Index(roles, h, r))
  }

  lemma VisitOne(roles: Rows, order: seq<string>, x: string, h: nat, r: nat, alias: string)
    requires NoOverlap(roles) && At(roles, h, r) && alias == Shortened(roles, order, h, r)
    ensures (if Single(roles, x) && x in roles[h] && alias == Numbered(x, 1) then x else alias)
         == Shortened(roles, order + [x], h, r)
  {
    var role, next := roles[h][r], order + [x];
    assert role in roles[h] && (role in next <==> role in order || role == x);
    if Single(roles, x) && x in roles[h] && alias == Numbered(x, 1) {
      var r' :| 0 <= r' < |roles[h]| && roles[h][r'] == x;
      if alias == role && Single(roles, role) {
        assert Overlap(roles, h, r', r);
      } else {
        NumberedInjective(role, Index(roles, h, r), x, 1);
      }
    } else if role == x && Single(roles, x) {
      SingleAtOnePlace(roles, h, r, h, r);
    }
  }

  /** Without an overlap each visit shortens exactly the aliases of its role. */
  lemma {:induction false} VisitsShorten(roles: Rows, order: seq<string>, h: nat, r: nat)
    requires NoOverlap(roles) && At(roles, h, r)
    ensures Visits(roles, order)[h][r] == Shortened(roles, order, h, r)
    decreases |order|
  {
    if order != [] {
      var n := |order| - 1;
      VisitsShorten(roles, order[..n], h, r);
      assert order == order[..n] + [order[n]];
      LastVisit(roles, order[..n], order[n], h, r);
      VisitOne(roles, order[..n], order[n], h, r, Visits(roles, order[..n])[h][r]);
    }
  }

  lemma LastVisit(roles: Rows, order: seq<string>, x: string, h: nat, r: nat)
    requires At(roles, h, r)
    ensures var alias := Visits(roles, order)[h][r];
            Visits(roles, order + [x])[h][r] ==
              if Single(roles, x) && x in roles[h] && alias == Numbered(x, 1) then x else alias
  {
    assert (order + [x])[..|order|] == order;
    assert Visits(roles, order + [x]) == Visit(roles, Visits(roles, order), x);
  }

  lemma OrderDoesNotMatter(roles: Rows, order: seq<string>)
    requires NoOverlap(roles) && IsOrder(roles, order)
    ensures Visits(roles, order) == Final(roles)
  {
    forall h, r | At(roles, h, r) ensures Visits(roles, order)[h][r] == Final(roles)[h][r] {
      VisitsShorten(roles, order, h, r);
      assert Has(roles, roles[h][r]);
    }
    forall h | 0 <= h < |roles| ensures Visits(roles, order)[h] == Final(roles)[h] {
      assert |Visits(roles, order)[h]| == |Final(roles)[h]|;
      assert forall r :: 0 <= r < |roles[h]| ==> At(roles, h, r);
    }
  }

  /* ---------- an overlap breaks some order ---------- */

  lemma VisitNeverLengthens(roles: Rows, order: seq<string>, x: string, h: nat, r: nat)
    requires At(roles, h, r)
    ensures |Visits(roles, order + [x])[h][r]| <= |Visits(roles, order)[h][r]|
  {
    LastVisit(roles, order, x, h, r);
    assert |Numbered(x, 1)| >= |x|;
  }

  /** Visits never lengthen an alias. */
  lemma {:induction false} VisitsNeverLengthen(roles: Rows, first: seq<string>, rest: seq<string>, h: nat, r: nat)
    requires At(roles, h, r)
    ensures |Visits(roles, first + rest)[h][r]| <= |Visits(roles, first)[h][r]|
    decreases |rest|
  {
    if rest == [] {
      assert first + rest == first;
    } else {
      var n := |rest| - 1;
      VisitsNeverLengthen(roles, first, rest[..n], h, r);
      VisitNeverLengthens(roles, first + rest[..n], rest[n], h, r);
      assert first + rest == first + rest[..n] + [rest[n]];
    }
  }

  lemma OverlapMisnames(roles: Rows, rest: seq<string>, h: nat, r: nat, r': nat)
    requires Overlap(roles, h, r, r')
    ensures Visits(roles, [roles[h][r'], roles[h][r]] + rest) != Final(roles)
  {
    var x, y := roles[h][r], roles[h][r'];
    SingleAtOnePlace(roles, h, r', h, r');
    assert [y, x][..1] == [y] && [y][..0] == [];
    assert Visits(roles, []) == Start(roles) && Start(roles)[h][r'] == Numbered(y, 1);
    assert Visits(roles, [y])[h][r'] == y;
    assert Visits(roles, [y, x])[h][r'] == x;
    VisitsNeverLengthen(roles, [y, x], rest, h, r');
    assert Final(roles)[h][r'] == y;
  }

  /** The roles other than those in `done`, in some order. */
  lemma {:induction false} Others(roles: Rows, n: nat, done: seq<string>) returns (order: seq<string>)
    requires n <= |roles|
    requires forall i, j :: 0 <= i < j < |done| ==> done[i] != done[j]
    ensures done <= order
    ensures forall i, j :: 0 <= i < j < |order| ==> order[i] != order[j]
    ensures forall role :: role in order <==> role in done || Has(roles[..n], role)
  {
    if n == 0 {
      order := done;
    } else {
      var before := Others(roles, n - 1, done);
      order := OthersInRow(roles[n - 1], |roles[n - 1]|, before);
      forall role ensures role in order <==> role in done || Has(roles[..n], role) {
        assert roles[..n][..n - 1] == roles[..n - 1] && roles[n - 1][..|roles[n - 1]|] == roles[n - 1];
        HasStep(roles[..n], role);
      }
    }
  }

  lemma HasStep(roles: Rows, role: string)
    requires roles != []
    ensures Has(roles, role) <==> Has(roles[..|roles| - 1], role) || role in roles[|roles| - 1]
  {
    var n := |roles| - 1;
    if Has(roles, role) {
      var h, r :| At(roles, h, r) && roles[h][r] == role;
      if h < n { assert At(roles[..n], h, r); }
    }
    if Has(roles[..n], role) {
      var h, r :| At(roles[..n], h, r) && roles[..n][h][r] == role;
      assert At(roles, h, r);
    }
    if role in roles[n] {
      var r :| 0 <= r < |roles[n]| && roles[n][r] == role;
      assert At(roles, n, r);
    }
  }

  lemma {:induction false} OthersInRow(row: seq<string>, n: nat, done: seq<string>) returns (order: seq<string>)
    requires n <= |row|
    requires forall i, j :: 0 <= i < j < |done| ==> done[i] != done[j]
    ensures done <= order
    ensures forall i, j :: 0 <= i < j < |order| ==> order[i] != order[j]
    ensures forall role :: role in order <==> role in done || role in row[..n]
  {
    if n == 0 {
      order := done;
    } else {
      order := OthersInRow(row, n - 1, done);
      assert row[..n] == row[..n - 1] + [row[n - 1]];
      if row[n - 1] !in order { order := order + [row[n - 1]]; }
    }
  }

  /** An order that visits `x-1` and then `x` first. */
  lemma OverlapOrder(roles: Rows, h: nat, r: nat, r': nat) returns (order: seq<string>)
    requires Overlap(roles, h, r, r')
    ensures IsOrder(roles, order) && |order| >= 2 && order == [roles[h][r'], roles[h][r]] + order[2..]
  {
    var done := [roles[h][r'], roles[h][r]];
    assert |Numbered(roles[h][r], 1)| > |roles[h][r]|;
    order := Others(roles, |roles|, done);
    assert roles[..|roles|] == roles;
    assert Has(roles, done[0]) && Has(roles, done[1]);
    assert order == done + order[2..];
  }

  /** The aliases are the intended ones in every order exactly when no host has two
      single roles `x` and `x-1`. */
  lemma IntendedInEveryOrder(roles: Rows)
    ensures NoOverlap(roles) <==> forall order :: IsOrder(roles, order) ==> Visits(roles, order) == Final(roles)
  {
    if NoOverlap(roles) {
      forall order | IsOrder(roles, order) ensures Visits(roles, order) == Final(roles) {
        OrderDoesNotMatter(roles, order);
      }
    } else {
      var h, r, r' :| Overlap(roles, h, r, r');
      var order := OverlapOrder(roles, h, r, r');
      OverlapMisnames(roles, order[2..], h, r, r');
    }
  }

  /* ---------- distinctness ---------- */

  ghost predicate Distinct(rows: Rows) {
    forall h, r, h', r' :: At(rows, h, r) && At(rows, h', r') && (h, r) != (h', r') ==> rows[h][r] != rows[h'][r']
  }

  /** A single role is spelt like a numbered alias of another role. */
  predicate Spelt(roles: Rows, y: string, x: string, k: nat) {
    Single(roles, y) && 1 <= k <= Total(roles, x) && !Single(roles, x) && y == Numbered(x, k)
  }

  lemma FinalAliasesDiffer(roles: Rows, h: nat, r: nat, h': nat, r': nat)
    requires At(roles, h, r) && At(roles, h', r') && (h, r) != (h', r')
    requires FinalAlias(roles, h, r) == FinalAlias(roles, h', r')
    ensures Spelt(roles, roles[h][r], roles[h'][r'], Index(roles, h', r'))
         || Spelt(roles, roles[h'][r'], roles[h][r], Index(roles, h, r))
  {
    var x, x' := roles[h][r], roles[h'][r'];
    IndexBounds(roles, h, r);
    IndexBounds(roles, h', r');
    if x == x' {
      IndexInjective(roles, h, r, h', r');
      if !Single(roles, x) { NumberedInjective(x, Index(roles, h, r), x', Index(roles, h', r')); }
    } else if !Single(roles, x) && !Single(roles, x') {
      NumberedInjective(x, Index(roles, h, r), x', Index(roles, h', r'));
    }
  }

  /** The intended aliases differ exactly when no single role is spelt like a numbered one. */
  lemma FinalDistinctExactly(roles: Rows)
    ensures Distinct(Final(roles)) <==> forall y, x, k :: !Spelt(roles, y, x, k)
  {
    if forall y, x, k :: !Spelt(roles, y, x, k) {
      forall h, r, h', r' | At(Final(roles), h, r) && At(Final(roles), h', r') && (h, r) != (h', r')
        ensures Final(roles)[h][r] != Final(roles)[h'][r']
      {
        assert At(roles, h, r) && At(roles, h', r');
        if FinalAlias(roles, h, r) == FinalAlias(roles, h', r') { FinalAliasesDiffer(roles, h, r, h', r'); }
      }
    } else {
      var y, x, k :| Spelt(roles, y, x, k);
      var h, r := NoGaps(roles, y, 1);
      var h', r' := NoGaps(roles, x, k);
      assert At(Final(roles), h, r) && At(Final(roles), h', r');
    }
  }

  lemma EqualStayEqual(roles: Rows, order: seq<string>, x: string, h: nat, r: nat, r': nat)
    requires At(roles, h, r) && At(roles, h, r') && Visits(roles, order)[h][r] == Visits(roles, order)[h][r']
    ensures Visits(roles, order + [x])[h][r] == Visits(roles, order + [x])[h][r']
  {
    LastVisit(roles, order, x, h, r);
    LastVisit(roles, order, x, h, r');
  }

  /** Two aliases of one host that have become equal are never told apart again. */
  lemma {:induction false} EqualForEver(roles: Rows, first: seq<string>, rest: seq<string>, h: nat, r: nat, r': nat)
    requires At(roles, h, r) && At(roles, h, r') && Visits(roles, first)[h][r] == Visits(roles, first)[h][r']
    ensures Visits(roles, first + rest)[h][r] == Visits(roles, first + rest)[h][r']
    decreases |rest|
  {
    if rest == [] {
      assert first + rest == first;
    } else {
      EqualStayEqual(roles, first, rest[0], h, r, r');
      EqualForEver(roles, first + [rest[0]], rest[1..], h, r, r');
      assert first + rest == first + [rest[0]] + rest[1..];
    }
  }

  lemma OverlapCollides(roles: Rows, rest: seq<string>, h: nat, r: nat, r': nat)
    requires Overlap(roles, h, r, r')
    ensures !Distinct(Visits(roles, [roles[h][r'], roles[h][r]] + rest))
  {
    var x, y := roles[h][r], roles[h][r'];
    SingleAtOnePlace(roles, h, r, h, r);
    SingleAtOnePlace(roles, h, r', h, r');
    FirstVisits(roles, h, r, r');
    EqualForEver(roles, [y, x], rest, h, r, r');
    var aliases := Visits(roles, [y, x] + rest);
    assert At(aliases, h, r) && At(aliases, h, r') && r != r';
  }

  /** Visiting `x-1` and then `x` leaves both roles with the alias `x`. */
  lemma FirstVisits(roles: Rows, h: nat, r: nat, r': nat)
    requires Overlap(roles, h, r, r')
    ensures Visits(roles, [roles[h][r'], roles[h][r]])[h][r] == roles[h][r]
    ensures Visits(roles, [roles[h][r'], roles[h][r]])[h][r'] == roles[h][r]
  {
    var x, y := roles[h][r], roles[h][r'];
    SingleAtOnePlace(roles, h, r, h, r);
    SingleAtOnePlace(roles, h, r', h, r');
    assert [y, x][..1] == [y] && [y][..0] == [];
    assert Visits(roles, []) == Start(roles);
    assert Start(roles)[h][r'] == Numbered(y, 1) && Start(roles)[h][r] == Numbered(x, 1);
    assert |Numbered(y, 1)| > |y|;
    assert Visits(roles, [y])[h][r'] == y && Visits(roles, [y])[h][r] == Numbered(x, 1);
  }

  /** All aliases differ in every order exactly when no host has two single roles `x` and
      `x-1` and no single role is spelt like a numbered alias. */
  lemma AliasesDistinctExactly(roles: Rows)
    ensures (forall order :: IsOrder(roles, order) ==> Distinct(Visits(roles, order))) <==>
              NoOverlap(roles) && forall y, x, k :: !Spelt(roles, y, x, k)
  {
    FinalDistinctExactly(roles);
    if NoOverlap(roles) {
      var some := Others(roles, |roles|, []);
      assert roles[..|roles|] == roles;
      assert IsOrder(roles, some);
      OrderDoesNotMatter(roles, some);
      forall order | IsOrder(roles, order) ensures Visits(roles, order) == Final(roles) {
        OrderDoesNotMatter(roles, order);
      }
    } else {
      var h, r, r' :| Overlap(roles, h, r, r');
      var order := OverlapOrder(roles, h, r, r');
      OverlapCollides(roles, order[2..], h, r, r');
    }
  }

  /* ---------- the table of the SSH configuration ---------- */

  /** Hosts with different first aliases all stay in the table keyed by them. */
  lemma {:induction false} TableLosesNoHost(hosts: seq<KnownHosts.Host>)
    requires forall i :: 0 <= i < |hosts| ==> hosts[i].aliases != []
    requires forall i, j :: 0 <= i < j < |hosts| ==> hosts[i].aliases[0] != hosts[j].aliases[0]
    ensures forall i :: 0 <= i < |hosts| ==>
      hosts[i].aliases[0] in KnownHosts.Table(hosts) && KnownHosts.Table(hosts)[hosts[i].aliases[0]] == hosts[i]
  {
    if hosts != [] {
      var n := |hosts| - 1;
      TableLosesNoHost(hosts[..n]);
      forall i | 0 <= i < |hosts|
        ensures hosts[i].aliases[0] in KnownHosts.Table(hosts)
        ensures KnownHosts.Table(hosts)[hosts[i].aliases[0]] == hosts[i]
      {
        if i < n { assert hosts[..n][i] == hosts[i]; }
      }
    }
  }

  /** Every listed host can be reached by its first alias. */
  lemma EveryHostListed(roles: Rows, order: seq<string>, hosts: seq<KnownHosts.Host>)
    requires NoOverlap(roles) && IsOrder(roles, order) && forall y, x, k :: !Spelt(roles, y, x, k)
    requires |hosts| == |roles|
    requires forall h :: 0 <= h < |hosts| ==> hosts[h].aliases == Visits(roles, order)[h] && hosts[h].aliases != []
    ensures forall h :: 0 <= h < |hosts| ==>
      hosts[h].aliases[0] in KnownHosts.Table(hosts) && KnownHosts.Table(hosts)[hosts[h].aliases[0]] == hosts[h]
  {
    OrderDoesNotMatter(roles, order);
    FinalDistinctExactly(roles);
    forall i, j | 0 <= i < j < |hosts| ensures hosts[i].aliases[0] != hosts[j].aliases[0] {
      assert At(Final(roles), i, 0) && At(Final(roles), j, 0);
    }
    TableLosesNoHost(hosts);
  }

  /* ---------- the code ---------- */

  /** `hosts` are the hosts of the first `count` occurrences of a role. */
  ghost predicate Grouped(roles: Rows, hostsByRole: map<string, seq<nat>>, role: string, count: nat) {
    && (role in hostsByRole <==> count > 0)
    && (role in hostsByRole ==>
          && |hostsByRole[role]| == count
          && forall h :: h in hostsByRole[role] ==> h < |roles| && role in roles[h])
  }

  /** `Grouped` when the loops have come to place `r` of host `h`. */
  ghost predicate GroupedTo(roles: Rows, hostsByRole: map<string, seq<nat>>, h: nat, r: nat, role: string)
    requires h < |roles| && r <= |roles[h]|
  {
    Grouped(roles, hostsByRole, role, Total(roles[..h], role) + CountIn(roles[h][..r], role))
  }

  ghost predicate AllGrouped(roles: Rows, hostsByRole: map<string, seq<nat>>, n: nat)
    requires n <= |roles|
  {
    forall role :: Grouped(roles, hostsByRole, role, Total(roles[..n], role))
  }

  ghost predicate AllGroupedTo(roles: Rows, hostsByRole: map<string, seq<nat>>, h: nat, r: nat)
    requires h < |roles| && r <= |roles[h]|
  {
    forall role :: GroupedTo(roles, hostsByRole, h, r, role)
  }

  function Grow(hostsByRole: map<string, seq<nat>>, role: string, h: nat): map<string, seq<nat>> {
    if role !in hostsByRole then hostsByRole[role := [h]] else hostsByRole[role := hostsByRole[role] + [h]]
  }

  lemma GroupStep(roles: Rows, hostsByRole: map<string, seq<nat>>, h: nat, r: nat)
    requires At(roles, h, r) && AllGroupedTo(roles, hostsByRole, h, r)
    ensures AllGroupedTo(roles, Grow(hostsByRole, roles[h][r], h), h, r + 1)
    ensures |Grow(hostsByRole, roles[h][r], h)[roles[h][r]]| == Index(roles, h, r)
  {
    assert roles[h][..r + 1][..r] == roles[h][..r];
    assert GroupedTo(roles, hostsByRole, h, r, roles[h][r]);
    var grown, next := Grow(hostsByRole, roles[h][r], h), r + 1;
    forall role ensures GroupedTo(roles, grown, h, next, role) {
      assert GroupedTo(roles, hostsByRole, h, r, role);
    }
  }

  lemma GroupRow(roles: Rows, hostsByRole: map<string, seq<nat>>, h: nat)
    requires h < |roles|
    ensures AllGrouped(roles, hostsByRole, h) ==> AllGroupedTo(roles, hostsByRole, h, 0)
    ensures AllGroupedTo(roles, hostsByRole, h, |roles[h]|) ==> AllGrouped(roles, hostsByRole, h + 1)
  {
    assert roles[h][..|roles[h]|] == roles[h];
    if AllGrouped(roles, hostsByRole, h) {
      forall role ensures GroupedTo(roles, hostsByRole, h, 0, role) {
        assert Grouped(roles, hostsByRole, role, Total(roles[..h], role));
      }
    }
    if AllGroupedTo(roles, hostsByRole, h, |roles[h]|) {
      var next := roles[..h + 1];
      forall role ensures Grouped(roles, hostsByRole, role, Total(next, role)) {
        assert GroupedTo(roles, hostsByRole, h, |roles[h]|, role);
        TotalStep(roles, h, role);
      }
    }
  }

  class Hosts {
    const roles: Rows
    var aliases: Rows

    constructor (roles: Rows)
      ensures this.roles == roles && aliases == []
    {
      this.roles, aliases := roles, [];
    }

    /** The first loop: numbers the hosts of each role. */
    method Number() returns (hostsByRole: map<string, seq<nat>>)
      modifies this
      ensures AllGrouped(roles, hostsByRole, |roles|)
      ensures aliases == Start(roles)
    {
      hostsByRole := map[];
      aliases := [];
      for h := 0 to |roles|
        invariant aliases == Start(roles)[..h]
        invariant AllGrouped(roles, hostsByRole, h)
      {
        var row;
        hostsByRole, row := NumberRow(hostsByRole, h);
        aliases := aliases + [row];
      }
      assert Start(roles)[..|roles|] == Start(roles);
    }

    method NumberRow(before: map<string, seq<nat>>, h: nat)
      returns (hostsByRole: map<string, seq<nat>>, row: seq<string>)
      requires h < |roles|
      requires AllGrouped(roles, before, h)
      ensures AllGrouped(roles, hostsByRole, h + 1)
      ensures row == Start(roles)[h]
    {
      hostsByRole, row := before, [];
      GroupRow(roles, hostsByRole, h);
      for r := 0 to |roles[h]|
        invariant |row| == r && forall i :: 0 <= i < r ==> row[i] == Numbered(roles[h][i], Index(roles, h, i))
        invariant AllGroupedTo(roles, hostsByRole, h, r)
      {
        var role := roles[h][r];
        GroupStep(roles, hostsByRole, h, r);
        if role !in hostsByRole {
          hostsByRole := hostsByRole[role := [h]];
        } else {
          hostsByRole := hostsByRole[role := hostsByRole[role] + [h]];
        }
        row := row + [Numbered(role, |hostsByRole[role]|)];
      }
      GroupRow(roles, hostsByRole, h);
    }

    /** Drops the number from the aliases `<role>-1` of one host. */
    method Rename(h: nat, role: string)
      requires h < |aliases|
      modifies this
      ensures aliases == old(aliases)[h := Renamed(old(aliases[h]), role)]
    {
      ghost var was := aliases;
      assert Numbered(role, 1) == role + "-1";
      for pos := 0 to |aliases[h]|
        invariant |aliases| == |was| && |aliases[h]| == |was[h]|
        invariant forall i :: 0 <= i < |was| && i != h ==> aliases[i] == was[i]
        invariant forall i :: 0 <= i < pos ==> aliases[h][i] == Renamed(was[h], role)[i]
        invariant forall i :: pos <= i < |was[h]| ==> aliases[h][i] == was[h][i]
      {
        if aliases[h][pos] == role + "-1" {
          aliases := aliases[h := aliases[h][pos := role]];
        }
      }
      assert aliases[h] == Renamed(was[h], role);
    }

    /** The second loop: drops the number of single hosts, role by role in some order. */
    method DropNumbers(hostsByRole: map<string, seq<nat>>)
      requires AllGrouped(roles, hostsByRole, |roles|)
      requires aliases == Start(roles)
      modifies this
      ensures exists order :: IsOrder(roles, order) && aliases == Visits(roles, order)
    {
      assert roles[..|roles|] == roles;
      var left := hostsByRole.Keys;
      ghost var order := [];
      while left != {}
        invariant Visited(order, hostsByRole.Keys, left)
        invariant aliases == Visits(roles, order)
        decreases |left|
      {
        var role :| role in left;
        VisitedStep(order, hostsByRole.Keys, left, role);
        left := left - {role};
        assert (order + [role])[..|order|] == order;
        order := order + [role];
        assert Grouped(roles, hostsByRole, role, Total(roles, role));
        if |hostsByRole[role]| == 1 {
          var h := hostsByRole[role][0];
          assert h in hostsByRole[role];
          OnlyHost(roles, aliases, role, h);
          Rename(h, role);
        } else {
          assert Visit(roles, aliases, role) == aliases;
        }
      }
      forall role ensures role in order <==> Has(roles, role) {
        assert Grouped(roles, hostsByRole, role, Total(roles, role));
        TotalPositive(roles, role);
      }
      assert IsOrder(roles, order);
    }

    /** The alias part of `ListHosts`. */
    method AssignAliases()
      modifies this
      ensures exists order :: IsOrder(roles, order) && aliases == Visits(roles, order)
      ensures NoOverlap(roles) ==> aliases == Final(roles)
    {
      var hostsByRole := Number();
      DropNumbers(hostsByRole);
      if NoOverlap(roles) {
        ghost var order :| IsOrder(roles, order) && aliases == Visits(roles, order);
        OrderDoesNotMatter(roles, order);
      }
    }
  }

  /** Loop state of `DropNumbers`: all roles but those left have been visited, once each. */
  ghost predicate Visited(order: seq<string>, all: set<string>, left: set<string>) {
    && left <= all
    && (forall role :: role in order <==> role in all && role !in left)
    && (forall i, j :: 0 <= i < j < |order| ==> order[i] != order[j])
  }

  lemma VisitedStep(order: seq<string>, all: set<string>, left: set<string>, role: string)
    requires Visited(order, all, left) && role in left
    ensures Visited(order + [role], all, left - {role})
  {
    forall x ensures x in order + [role] <==> x in order || x == role {}
  }

  lemma OnlyHost(roles: Rows, aliases: Rows, role: string, h: nat)
    requires |aliases| == |roles| && h < |roles| && role in roles[h] && Single(roles, role)
    ensures Visit(roles, aliases, role) == aliases[h := Renamed(aliases[h], role)]
  {
    var r :| 0 <= r < |roles[h]| && roles[h][r] == role;
    forall h' | 0 <= h' < |roles| && role in roles[h'] ensures h' == h {
      var r' :| 0 <= r' < |roles[h']| && roles[h'][r'] == role;
      SingleAtOnePlace(roles, h, r, h', r');
    }
  }
}
