/** Byte strings as Go orders, prints and splits them.
    A Go string is modelled by the `string` of its bytes. */
module Text {

  datatype Option<+T> = None | Some(value: T)

  /* ---------- prefixes and suffixes ---------- */

  predicate HasPrefix(s: string, p: string) {
    p <= s
  }

  predicate HasSuffix(s: string, p: string) {
    |p| <= |s| && s[|s| - |p|..] == p
  }

  /** `bytes.Contains`. */
  predicate Contains(s: string, p: string) {
    HasPrefix(s, p) || (s != "" && Contains(s[1..], p))
  }

  predicate OccursAt(s: string, p: string, i: nat) {
    i <= |s| && p <= s[i..]
  }

  /** Containing is occurring at some place. */
  lemma {:induction false} ContainsExactly(s: string, p: string)
    ensures Contains(s, p) <==> exists i: nat :: OccursAt(s, p, i)
  {
    if HasPrefix(s, p) {
      assert s[0..] == s;
      assert OccursAt(s, p, 0);
    } else if s == "" {
      assert forall i: nat :: i <= |s| ==> s[i..] == s;
    } else {
      ContainsExactly(s[1..], p);
      if i: nat :| OccursAt(s[1..], p, i) {
        assert s[1..][i..] == s[i + 1..];
        assert OccursAt(s, p, i + 1);
      }
      if i: nat :| OccursAt(s, p, i) {
        assert s[0..] == s;
        assert s[1..][i - 1..] == s[i..];
        assert OccursAt(s[1..], p, i - 1);
      }
    }
  }

  lemma SuffixOfConcat(a: string, b: string)
    ensures HasSuffix(a + b, b)
  {
    assert (a + b)[|a|..] == b;
  }

  /* ---------- the order of Go strings ---------- */

  /** `a < b` in Go: bytewise lexicographic. */
  predicate Less(a: string, b: string) {
    b != [] && (a == [] || a[0] < b[0] || (a[0] == b[0] && Less(a[1..], b[1..])))
  }

  lemma {:induction false} LessIrreflexive(a: string)
    ensures !Less(a, a)
  {
    if a != [] { LessIrreflexive(a[1..]); }
  }

  lemma {:induction false} LessTransitive(a: string, b: string, c: string)
    requires Less(a, b) && Less(b, c)
    ensures Less(a, c)
  {
    if a != [] && a[0] == b[0] && b[0] == c[0] { LessTransitive(a[1..], b[1..], c[1..]); }
  }

  lemma {:induction false} LessTotal(a: string, b: string)
    ensures Less(a, b) || a == b || Less(b, a)
  {
    if a != [] && b != [] && a[0] == b[0] {
      LessTotal(a[1..], b[1..]);
      if a[1..] == b[1..] { assert a == [a[0]] + a[1..] && b == [b[0]] + b[1..]; }
    }
  }

  lemma LessAsymmetric(a: string, b: string)
    requires Less(a, b)
    ensures !Less(b, a)
  {
    if Less(b, a) { LessTransitive(a, b, a); LessIrreflexive(a); }
  }

  /** A common prefix does not matter for the order. */
  lemma {:induction false} LessCommonPrefix(p: string, a: string, b: string)
    ensures Less(p + a, p + b) == Less(a, b)
  {
    if p == [] {
      assert p + a == a && p + b == b;
    } else {
      assert (p + a)[1..] == p[1..] + a && (p + b)[1..] == p[1..] + b;
      LessCommonPrefix(p[1..], a, b);
    }
  }

  /** When neither string is a prefix of the other, their first difference decides,
      whatever follows. */
  lemma {:induction false} LessPrefixFree(a: string, b: string, x: string, y: string)
    requires !(a <= b) && !(b <= a)
    ensures Less(a + x, b + y) == Less(a, b)
  {
    if a[0] == b[0] {
      assert (a + x)[1..] == a[1..] + x && (b + y)[1..] == b[1..] + y;
      assert a == [a[0]] + a[1..] && b == [b[0]] + b[1..];
      LessPrefixFree(a[1..], b[1..], x, y);
    }
  }

  predicate AtMost(a: string, b: string) {
    !Less(b, a)
  }

  ghost predicate Sorted(s: seq<string>) {
    forall i, j :: 0 <= i < j < |s| ==> AtMost(s[i], s[j])
  }

  lemma AtMostTransitive(a: string, b: string, c: string)
    requires AtMost(a, b) && AtMost(b, c)
    ensures AtMost(a, c)
  {
    LessTotal(a, b);
    LessTotal(b, c);
    if Less(c, a) {
      if a == b || b == c {
      } else {
        LessTransitive(a, b, c);
        LessTransitive(a, c, a);
        LessIrreflexive(a);
      }
    }
  }

  /** The head of a sorted list is below every element. */
  lemma HeadIsLeast(a: seq<string>, x: string)
    requires Sorted(a) && x in multiset(a)
    ensures a != [] && AtMost(a[0], x)
  {
    assert x in a;
    var i :| 0 <= i < |a| && a[i] == x;
    if i == 0 { LessIrreflexive(x); }
  }

  lemma TailMultiset(a: seq<string>)
    requires a != []
    ensures multiset(a[1..]) == multiset(a) - multiset{a[0]}
  {
    assert a == [a[0]] + a[1..];
  }

  /** A sorted list is determined by its elements: sorting forgets the order it was given. */
  lemma {:induction false} SortedUnique(a: seq<string>, b: seq<string>)
    requires Sorted(a) && Sorted(b) && multiset(a) == multiset(b)
    ensures a == b
    decreases |a|
  {
    if a == [] {
      assert |multiset(b)| == |b|;
    } else {
      assert a[0] in multiset(a);
      HeadIsLeast(b, a[0]);
      assert b[0] in multiset(b);
      HeadIsLeast(a, b[0]);
      LessTotal(a[0], b[0]);
      TailMultiset(a);
      TailMultiset(b);
      SortedUnique(a[1..], b[1..]);
      assert a == [a[0]] + a[1..] && b == [b[0]] + b[1..];
    }
  }

  ghost predicate SortedBy<T>(s: seq<T>, key: T -> string) {
    forall i, j :: 0 <= i < j < |s| ==> AtMost(key(s[i]), key(s[j]))
  }

  /** `sort.Slice` and `sort.Strings`: some sorted arrangement of the same elements. */
  method SortBy<T(==)>(s: seq<T>, key: T -> string) returns (r: seq<T>)
    ensures SortedBy(r, key) && multiset(r) == multiset(s)
  {
    r := [];
    for n := 0 to |s|
      invariant SortedBy(r, key) && multiset(r) == multiset(s[..n])
    {
      assert s[..n + 1] == s[..n] + [s[n]];
      r := Insert(r, s[n], key);
    }
    assert s[..|s|] == s;
  }

  method Insert<T(==)>(r: seq<T>, x: T, key: T -> string) returns (r': seq<T>)
    requires SortedBy(r, key)
    ensures SortedBy(r', key) && multiset(r') == multiset(r) + multiset{x}
  {
    var k := |r|;
    while k > 0 && Less(key(x), key(r[k - 1]))
      invariant 0 <= k <= |r|
      invariant forall i :: k <= i < |r| ==> AtMost(key(x), key(r[i]))
    {
      LessAsymmetric(key(x), key(r[k - 1]));
      k := k - 1;
    }
    InsertSorted(r, x, k, key);
    r' := r[..k] + [x] + r[k..];
  }

  lemma InsertSorted<T>(r: seq<T>, x: T, k: nat, key: T -> string)
    requires SortedBy(r, key) && k <= |r|
    requires k > 0 ==> AtMost(key(r[k - 1]), key(x))
    requires forall i :: k <= i < |r| ==> AtMost(key(x), key(r[i]))
    ensures SortedBy(r[..k] + [x] + r[k..], key)
    ensures multiset(r[..k] + [x] + r[k..]) == multiset(r) + multiset{x}
  {
    assert r == r[..k] + r[k..];
    var r' := r[..k] + [x] + r[k..];
    forall i, j | 0 <= i < j < |r'| ensures AtMost(key(r'[i]), key(r'[j])) {
      InsertedPair(r, x, k, key, i, j);
    }
  }

  lemma InsertedPair<T>(r: seq<T>, x: T, k: nat, key: T -> string, i: nat, j: nat)
    requires SortedBy(r, key) && k <= |r| && i < j <= |r|
    requires k > 0 ==> AtMost(key(r[k - 1]), key(x))
    requires forall i :: k <= i < |r| ==> AtMost(key(x), key(r[i]))
    ensures AtMost(key((r[..k] + [x] + r[k..])[i]), key((r[..k] + [x] + r[k..])[j]))
  {
    if j == k && i < k - 1 { AtMostTransitive(key(r[i]), key(r[k - 1]), key(x)); }
  }

  /** `strings.Join`. */
  function Join(parts: seq<string>, sep: string): string {
    if |parts| == 0 then ""
    else if |parts| == 1 then parts[0]
    else parts[0] + sep + Join(parts[1..], sep)
  }

  /* ---------- decimals ---------- */

  function Digit(d: nat): (c: char)
    requires d < 10
    ensures '0' <= c <= '9' && c as int == '0' as int + d
  {
    ('0' as int + d) as char
  }

  /** `%d` of a non-negative integer. */
  function Decimal(n: nat): string {
    if n < 10 then [Digit(n)] else Decimal(n / 10) + [Digit(n % 10)]
  }

  predicate AllDigits(s: string) {
    forall i :: 0 <= i < |s| ==> '0' <= s[i] <= '9'
  }

  function ParseDigits(s: string): nat
    requires AllDigits(s)
  {
    if s == "" then 0 else 10 * ParseDigits(s[..|s| - 1]) + (s[|s| - 1] as int - '0' as int)
  }

  /** Parsing undoes printing. */
  lemma {:induction false} DecimalParses(n: nat)
    ensures Decimal(n) != "" && AllDigits(Decimal(n)) && ParseDigits(Decimal(n)) == n
  {
    var s := Decimal(n);
    if n >= 10 {
      DecimalParses(n / 10);
      assert s[..|s| - 1] == Decimal(n / 10) && s[|s| - 1] == Digit(n % 10);
    } else {
      assert s == [Digit(n)] && s[..0] == "";
      assert ParseDigits(s) == 10 * ParseDigits(s[..0]) + n;
    }
  }

  /* ---------- the last dash ---------- */

  /** Everything up to and including the last `-`: `strings.Join` of all but the last
      part of `strings.Split(s, "-")`, with the separator that follows. */
  function Stem(s: string): (r: string)
    ensures r <= s
  {
    if s == "" || s[|s| - 1] == '-' then s else Stem(s[..|s| - 1])
  }

  /** The last part of `strings.Split(s, "-")`. */
  function Tail(s: string): string {
    s[|Stem(s)|..]
  }

  lemma {:induction false} StemAndTail(x: string, d: string)
    requires '-' !in d
    ensures Stem(x + "-" + d) == x + "-" && Tail(x + "-" + d) == d
  {
    var s := x + "-" + d;
    if d == "" {
      assert s == x + "-";
    } else {
      assert s[..|s| - 1] == x + "-" + d[..|d| - 1];
      StemAndTail(x, d[..|d| - 1]);
    }
  }

  /** `<x>-<i>` names at most one pair. */
  lemma NumberedInjective(x: string, i: nat, y: string, j: nat)
    requires x + "-" + Decimal(i) == y + "-" + Decimal(j)
    ensures x == y && i == j
  {
    DecimalParses(i);
    DecimalParses(j);
    StemAndTail(x, Decimal(i));
    StemAndTail(y, Decimal(j));
    assert (x + "-")[..|x|] == x && (y + "-")[..|y|] == y;
  }
}
