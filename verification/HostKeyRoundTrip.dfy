/** Reading back what the tagging control function wrote: each key comes back on its own,
    and exactly the restorable ones come back right. */
module HostKeyRoundTrip {
  import opened Text
  import opened HostKeyTags

  /** A tag the reader has no business with: not a chunk of any of the keys, whatever its
      number, and not mistaken for the start of one. */
  ghost predicate Unrelated(chunks: Chunked, key: string) {
    !LooksLikeStart(key) && forall n, i: nat :: n in chunks ==> key != TagName(n, i)
  }

  ghost predicate UniqueKeys(tags: seq<Tag>) {
    forall i, j :: 0 <= i < j < |tags| ==> tags[i].key != tags[j].key
  }

  ghost predicate IsSomeChunk(chunks: Chunked, t: Tag) {
    exists n, i: nat :: IsChunk(chunks, t, n, i)
  }

  ghost predicate Stored(chunks: Chunked, tags: seq<Tag>, n: string, i: nat) {
    n in chunks && i < |chunks[n]| ==> Tag(TagName(n, i), chunks[n][i]) in tags
  }

  ghost predicate Accounted(chunks: Chunked, tags: seq<Tag>, t: Tag) {
    t in tags ==> Unrelated(chunks, t.key) || IsSomeChunk(chunks, t)
  }

  /** An instance's tags, in any order: all the chunks of the keys, and unrelated tags. */
  ghost predicate Carries(chunks: Chunked, tags: seq<Tag>) {
    && UniqueKeys(tags)
    && (forall n, i: nat :: Stored(chunks, tags, n, i))
    && (forall t :: Accounted(chunks, tags, t))
  }

  ghost predicate IsKeyFile(names: set<string>, n: string) {
    n in names ==> HasSuffix(n, "key")
  }

  /** Key file names as found under /etc/ssh: they end in `key`. */
  ghost predicate KeyFileNames(names: set<string>) {
    forall n :: IsKeyFile(names, n)
  }

  ghost predicate Listed(chunks: Chunked, names: seq<string>, n: string) {
    n in chunks ==> n in names
  }

  ghost predicate StartsBefore(names: seq<string>, i: int, j: int) {
    0 <= i < j < |names| ==> Less(TagName(names[i], 0), TagName(names[j], 0))
  }

  /** `names` lists the keys in the order of their tags. */
  ghost predicate InTagOrder(chunks: Chunked, names: seq<string>) {
    && (forall j :: 0 <= j < |names| ==> names[j] in chunks)
    && (forall n :: Listed(chunks, names, n))
    && (forall i, j :: StartsBefore(names, i, j))
  }

  ghost predicate ComesBefore(s: seq<Tag>, i: int, j: int) {
    0 <= i < j < |s| ==> Less(s[i].key, s[j].key)
  }

  ghost predicate Strict(s: seq<Tag>) {
    forall i, j :: ComesBefore(s, i, j)
  }

  /** `ks[j]` is the span of key `j`. */
  ghost predicate Spans(names: seq<string>, ks: seq<nat>) {
    |ks| == |names| && forall j :: SpanOk(names, ks, j)
  }

  ghost predicate SpanOk(names: seq<string>, ks: seq<nat>, j: int) {
    0 <= j < |names| && j < |ks| ==> ks[j] == Span(names, j)
  }

  ghost predicate Setup(chunks: Chunked, names: seq<string>, ks: seq<nat>, s: seq<Tag>) {
    && KeyFileNames(chunks.Keys) && InTagOrder(chunks, names) && Carries(chunks, s) && Strict(s) && Spans(names, ks)
    && forall n :: n in chunks ==> chunks[n] != []
  }

  /* ---------- where the tags are ---------- */

  /** All the tags called `key` are at or after position `p` (`later`), or all before it. */
  ghost predicate Placed(s: seq<Tag>, key: string, p: nat, later: bool) {
    forall q :: 0 <= q < |s| && s[q].key == key ==> (q >= p <==> later)
  }

  /** The keys from number `m` on start at or after position `p`, the others before it. */
  ghost predicate Starts(s: seq<Tag>, names: seq<string>, p: nat, m: nat) {
    forall j :: StartAt(s, names, p, m, j)
  }

  ghost predicate StartAt(s: seq<Tag>, names: seq<string>, p: nat, m: nat, j: int) {
    0 <= j < |names| ==> Placed(s, TagName(names[j], 0), p, j >= m)
  }

  lemma PlacedMoves(s: seq<Tag>, key: string, p: nat, later: bool)
    requires p < |s| && Placed(s, key, p, later) && s[p].key != key
    ensures Placed(s, key, p + 1, later)
  {
  }

  lemma OrderOfPositions(s: seq<Tag>, p: nat, q: nat)
    requires Strict(s) && p < |s| && q < |s|
    ensures s[p].key == s[q].key ==> p == q
    ensures Less(s[p].key, s[q].key) ==> p < q
  {
    LessIrreflexive(s[p].key);
    assert ComesBefore(s, p, q) && ComesBefore(s, q, p);
    if q < p { LessAsymmetric(s[q].key, s[p].key); }
  }

  /** A tag named like a chunk of a key is that chunk. */
  lemma ChunkExists(chunks: Chunked, s: seq<Tag>, q: nat, name: string, i: nat)
    requires Carries(chunks, s) && q < |s| && name in chunks && s[q].key == TagName(name, i)
    ensures i < |chunks[name]| && s[q] == Tag(TagName(name, i), chunks[name][i])
  {
    assert Accounted(chunks, s, s[q]);
    assert !Unrelated(chunks, s[q].key);
    var n, j: nat :| IsChunk(chunks, s[q], n, j);
    TagNameInjective(name, i, n, j);
  }

  lemma FindChunk(chunks: Chunked, s: seq<Tag>, name: string, i: nat) returns (q: nat)
    requires Carries(chunks, s) && name in chunks && i < |chunks[name]|
    ensures q < |s| && s[q].key == TagName(name, i)
  {
    assert Stored(chunks, s, name, i);
    q :| 0 <= q < |s| && s[q] == Tag(TagName(name, i), chunks[name][i]);
  }

  /** The first number from `c` on whose chunk of `n` does not come before the start of `n'`;
      in string order the reader gets no further than ten chunks. */
  function SpanFrom(n: string, n': string, c: nat): (k: nat)
    requires c <= MAX_FOLLOWED
    ensures c <= k <= MAX_FOLLOWED
    ensures forall i :: c <= i < k ==> Less(TagName(n, i), TagName(n', 0))
    ensures k < MAX_FOLLOWED ==> !Less(TagName(n, k), TagName(n', 0))
    decreases MAX_FOLLOWED - c
  {
    if c < MAX_FOLLOWED && Less(TagName(n, c), TagName(n', 0)) then SpanFrom(n, n', c + 1) else c
  }

  /** How many chunks of key `j` come before the next key starts. */
  function Span(names: seq<string>, j: nat): (k: nat)
    requires j < |names|
    ensures 1 <= k <= MAX_FOLLOWED
  {
    if j + 1 < |names| then SpanFrom(names[j], names[j + 1], 1) else MAX_FOLLOWED
  }

  lemma SpanBounds(names: seq<string>, ks: seq<nat>, j: nat)
    requires Spans(names, ks) && j < |names|
    ensures 1 <= ks[j] <= MAX_FOLLOWED
  {
    assert SpanOk(names, ks, j);
  }

  function Followed(vs: seq<string>, k: nat): nat {
    if |vs| < k then |vs| else k
  }

  /** No tag called `key` lies ahead before the next key, number `m`, starts. */
  ghost predicate Missed(s: seq<Tag>, key: string, p: nat, names: seq<string>, m: nat) {
    forall q :: p <= q < |s| && s[q].key == key ==> m < |names| && Less(TagName(names[m], 0), key)
  }

  /** The chunk `c` waited for lies ahead while it is to be followed, and is missed after. */
  ghost predicate Awaited(s: seq<Tag>, names: seq<string>, ks: seq<nat>, j: nat, vs: seq<string>, p: nat, c: nat)
    requires j < |names| == |ks|
  {
    if c < Followed(vs, ks[j]) then Placed(s, TagName(names[j], c), p, true)
    else Missed(s, TagName(names[j], c), p, names, j + 1)
  }

  /** After chunk `c` of a key, chunk `c + 1` is awaited. */
  lemma NextAwaited(chunks: Chunked, names: seq<string>, ks: seq<nat>, s: seq<Tag>, p: nat, j: nat, c: nat)
    requires Setup(chunks, names, ks, s) && p < |s| && j < |names|
    requires c < Followed(chunks[names[j]], ks[j]) && s[p].key == TagName(names[j], c)
    ensures Awaited(s, names, ks, j, chunks[names[j]], p + 1, c + 1)
  {
    var name := names[j];
    assert SpanOk(names, ks, j);
    ChunkOrder(name, c);
    forall q | 0 <= q < |s| && s[q].key == TagName(name, c + 1)
      ensures q >= p + 1 || !(c + 1 < Followed(chunks[name], ks[j]))
      ensures q >= p + 1 && c + 1 >= Followed(chunks[name], ks[j]) ==>
                j + 1 < |names| && Less(TagName(names[j + 1], 0), TagName(name, c + 1))
    {
      OrderOfPositions(s, p, q);
      OrderOfPositions(s, q, p);
      ChunkExists(chunks, s, q, name, c + 1);
      if c + 1 < MAX_FOLLOWED && c + 1 == ks[j] {
        assert StartsBefore(names, j, j + 1);
        AfterNextStart(names, j, c + 1);
      }
    }
  }

  lemma AfterNextStart(names: seq<string>, j: nat, c: nat)
    requires j < |names| && c == Span(names, j) < MAX_FOLLOWED && StartsBefore(names, j, j + 1)
    ensures j + 1 < |names| && Less(TagName(names[j + 1], 0), TagName(names[j], c))
  {
    var n, n' := names[j], names[j + 1];
    LessTotal(TagName(n, c), TagName(n', 0));
    if TagName(n, c) == TagName(n', 0) { TagNameInjective(n, c, n', 0); }
  }

  /** Once the next key starts, or the tags end, no followed chunk of a key lies ahead. */
  lemma NoChunkAhead(chunks: Chunked, names: seq<string>, ks: seq<nat>, s: seq<Tag>, p: nat, j: nat, c: nat)
    requires Setup(chunks, names, ks, s) && j < |names| && c < Followed(chunks[names[j]], ks[j]) && p <= |s|
    requires p < |s| ==> j + 1 < |names| && s[p].key == TagName(names[j + 1], 0)
    ensures !Placed(s, TagName(names[j], c), p, true)
  {
    var q := FindChunk(chunks, s, names[j], c);
    if p < |s| {
      assert SpanOk(names, ks, j) && StartsBefore(names, j, j + 1);
      OrderOfPositions(s, q, p);
    }
  }

  /** Nor is a missed chunk ever met before the next start. */
  lemma NotMet(chunks: Chunked, names: seq<string>, ks: seq<nat>, s: seq<Tag>, p: nat, m: nat, key: string)
    requires Setup(chunks, names, ks, s) && p < |s| && m <= |names| && Missed(s, key, p, names, m)
    requires Starts(s, names, p, m)
    ensures s[p].key != key
  {
    if s[p].key == key {
      var q := FindChunk(chunks, s, names[m], 0);
      assert StartAt(s, names, p, m, m);
      OrderOfPositions(s, q, p);
      assert false;
    }
  }

  /** Keys start in the order of `names`: the `m`-th start is the next to come. */
  lemma StartIsNext(chunks: Chunked, names: seq<string>, ks: seq<nat>, s: seq<Tag>, p: nat, m: nat, j: nat)
    requires Setup(chunks, names, ks, s) && p < |s| && m <= |names| && j < |names|
    requires Starts(s, names, p, m)
    requires s[p].key == TagName(names[j], 0)
    ensures j == m
  {
    assert StartAt(s, names, p, m, j);
    if j > m {
      var q := FindChunk(chunks, s, names[m], 0);
      assert StartAt(s, names, p, m, m) && StartsBefore(names, m, j);
      OrderOfPositions(s, q, p);
      assert false;
    }
  }

  lemma StartsMove(chunks: Chunked, names: seq<string>, ks: seq<nat>, s: seq<Tag>, p: nat, m: nat)
    requires Setup(chunks, names, ks, s) && p < |s| && m < |names| && Starts(s, names, p, m)
    requires s[p].key == TagName(names[m], 0)
    ensures Starts(s, names, p + 1, m + 1)
  {
    var p', m' := p + 1, m + 1;
    forall i ensures StartAt(s, names, p', m', i) {
      assert StartAt(s, names, p, m, i);
      if 0 <= i < |names| { StartMoves(names, s, p, m, i); }
    }
  }

  lemma StartMoves(names: seq<string>, s: seq<Tag>, p: nat, m: nat, i: nat)
    requires Strict(s) && p < |s| && m < |names| && i < |names| && forall j, k :: StartsBefore(names, j, k)
    requires Placed(s, TagName(names[i], 0), p, i >= m)
    requires s[p].key == TagName(names[m], 0)
    ensures Placed(s, TagName(names[i], 0), p + 1, i >= m + 1)
  {
    if i == m {
      forall q | 0 <= q < |s| && s[q].key == TagName(names[i], 0) ensures q < p + 1 {
        OrderOfPositions(s, p, q);
      }
    } else {
      assert StartsBefore(names, i, m) && StartsBefore(names, m, i);
      if i < m { LessIrreflexive(TagName(names[i], 0)); } else { LessIrreflexive(TagName(names[m], 0)); }
      PlacedMoves(s, TagName(names[i], 0), p, i >= m);
    }
  }

  lemma StartsStay(chunks: Chunked, names: seq<string>, ks: seq<nat>, s: seq<Tag>, p: nat, m: nat)
    requires Setup(chunks, names, ks, s) && p < |s| && !LooksLikeStart(s[p].key) && Starts(s, names, p, m)
    ensures Starts(s, names, p + 1, m)
  {
    var p' := p + 1;
    forall j ensures StartAt(s, names, p', m, j) {
      assert StartAt(s, names, p, m, j);
      if 0 <= j < |names| {
        assert IsKeyFile(chunks.Keys, names[j]);
        StartTags(names[j], 0);
        PlacedMoves(s, TagName(names[j], 0), p, j >= m);
      }
    }
  }

  /* ---------- reading one entry ---------- */

  function WithLast(texts: seq<string>, text: string): seq<string>
    requires texts != []
  {
    texts[|texts| - 1 := text]
  }

  lemma EntryMarked(st: Reading, t: Tag)
    requires st.Reading? && st.texts != [] && HasSuffix(t.value, EOF)
    ensures |t.value| <= |EOF| ==> ReadEntry(st, t) == Panicked
    ensures |t.value| > |EOF| ==>
              var text := st.texts[|st.texts| - 1] + t.value[..|t.value| - (|EOF| + 1)];
              ReadEntry(st, t) == Reading("", WithLast(st.texts, text))
  {
  }

  lemma EntryUnmarked(st: Reading, name: string, c: nat, value: string)
    requires st.Reading? && st.texts != [] && !HasSuffix(value, EOF) && c < MAX_INT64
    ensures ReadEntry(st, Tag(TagName(name, c), value))
            == Reading(TagName(name, c + 1), WithLast(st.texts, st.texts[|st.texts| - 1] + value))
  {
    TagNameParts(name, c);
  }

  lemma PrependTwice(a: string, b: string, r: Option<string>)
    ensures Prepend(a, Prepend(b, r)) == Prepend(a + b, r)
  {
    if r.Some? { assert a + (b + r.value) == (a + b) + r.value; }
  }

  /** `text`, read from the first `c` chunks of a key, is on course to `goal`. */
  ghost predicate OnCourse(vs: seq<string>, k: nat, goal: Option<string>, text: string, c: nat) {
    c <= Followed(vs, k) && goal == Prepend(text, ReadChunks(vs[c..], k - c))
  }

  lemma CourseStarts(vs: seq<string>, k: nat)
    ensures OnCourse(vs, k, ReadChunks(vs, k), "", 0)
  {
    assert vs[0..] == vs;
    if ReadChunks(vs, k).Some? { assert "" + ReadChunks(vs, k).value == ReadChunks(vs, k).value; }
  }

  lemma CourseEnds(vs: seq<string>, k: nat, goal: Option<string>, text: string)
    requires OnCourse(vs, k, goal, text, Followed(vs, k))
    ensures goal == Some(text)
  {
    assert text + "" == text;
  }

  /** The key being read is either complete (`c` is 0) or `c` of its chunks are consumed. */
  ghost predicate Progress(name: string, vs: seq<string>, k: nat, goal: Option<string>, next: string, text: string,
                           c: nat)
  {
    if c == 0 then next == "" && goal == Some(text)
    else next == TagName(name, c) && OnCourse(vs, k, goal, text, c)
  }

  /** A chunk without the marker keeps the course. */
  lemma CourseGoesOn(vs: seq<string>, k: nat, goal: Option<string>, text: string, c: nat)
    requires c < Followed(vs, k) && OnCourse(vs, k, goal, text, c) && !HasSuffix(vs[c], EOF)
    ensures OnCourse(vs, k, goal, text + vs[c], c + 1)
  {
    assert vs[c..][0] == vs[c] && vs[c..][1..] == vs[c + 1..];
    PrependTwice(text, vs[c], ReadChunks(vs[c + 1..], k - (c + 1)));
  }

  /** The chunk with the marker ends it. */
  lemma CourseStops(vs: seq<string>, k: nat, goal: Option<string>, text: string, c: nat)
    requires c < Followed(vs, k) && OnCourse(vs, k, goal, text, c) && HasSuffix(vs[c], EOF)
    ensures goal == if |vs[c]| <= |EOF| then None else Some(text + vs[c][..|vs[c]| - (|EOF| + 1)])
  {
    assert vs[c..][0] == vs[c];
  }

  /** Reading chunk `c` of a key on top of the chunks before it. */
  lemma ReadsEntry(name: string, vs: seq<string>, k: nat, goal: Option<string>, c: nat, st: Reading, t: Tag)
    returns (st': Reading, text: string, c': nat)
    requires st.Reading? && st.texts != [] && k <= MAX_FOLLOWED && c < Followed(vs, k)
    requires t == Tag(TagName(name, c), vs[c])
    requires OnCourse(vs, k, goal, st.texts[|st.texts| - 1], c)
    ensures c' == 0 || c' == c + 1
    ensures st' == ReadEntry(st, t)
    ensures st'.Panicked? ==> goal == None
    ensures st'.Reading? ==> st'.texts == WithLast(st.texts, text) && Progress(name, vs, k, goal, st'.next, text, c')
  {
    var done := st.texts[|st.texts| - 1];
    if HasSuffix(t.value, EOF) {
      c' := 0;
      EntryMarked(st, t);
      CourseStops(vs, k, goal, done, c);
      if |t.value| > |EOF| {
        text := done + t.value[..|t.value| - (|EOF| + 1)];
        st' := Reading("", WithLast(st.texts, text));
      } else {
        st', text := Panicked, "";
      }
    } else {
      c' := c + 1;
      EntryUnmarked(st, name, c, t.value);
      CourseGoesOn(vs, k, goal, done, c);
      text := done + t.value;
      st' := Reading(TagName(name, c + 1), WithLast(st.texts, text));
    }
  }

  /* ---------- the invariant of the reassembly loop ---------- */

  ghost function Goals(chunks: Chunked, names: seq<string>, ks: seq<nat>): (goals: seq<Option<string>>)
    requires |ks| == |names| && forall j :: 0 <= j < |names| ==> names[j] in chunks
    ensures |goals| == |names|
    ensures forall j :: 0 <= j < |names| ==> goals[j] == ReadChunks(chunks[names[j]], ks[j])
  {
    seq(|names|, j requires 0 <= j < |names| => ReadChunks(chunks[names[j]], ks[j]))
  }

  ghost predicate GoalsMet(goals: seq<Option<string>>, texts: seq<string>, m: int) {
    forall j :: GoalMet(goals, texts, m, j)
  }

  ghost predicate GoalMet(goals: seq<Option<string>>, texts: seq<string>, m: int, j: int) {
    0 <= j < m && j < |goals| && j < |texts| ==> goals[j] == Some(texts[j])
  }

  /** The loop's state after `p` tags, given what each key is to read as: the keys started so
      far are a prefix of `names`, all but the last are read, and of the last, `c` chunks. */
  ghost predicate Inv(chunks: Chunked, names: seq<string>, ks: seq<nat>, goals: seq<Option<string>>, s: seq<Tag>,
                      p: nat, st: Reading, c: nat)
    requires |goals| == |names| == |ks| && forall j :: 0 <= j < |names| ==> names[j] in chunks
  {
    match st
    case Panicked => None in goals
    case Reading(next, texts) =>
      var m := |texts|;
      && m <= |names|
      && Starts(s, names, p, m)
      && GoalsMet(goals, texts, m - 1)
      && (m == 0 ==> next == "")
      && (m > 0 ==>
            var n := names[m - 1];
            && Progress(n, chunks[n], ks[m - 1], goals[m - 1], next, texts[m - 1], c)
            && (c > 0 ==> Awaited(s, names, ks, m - 1, chunks[n], p, c)))
  }

  /** Consuming the chunk that is next for the key being read. */
  lemma ReadsChunk(chunks: Chunked, names: seq<string>, ks: seq<nat>, goals: seq<Option<string>>, s: seq<Tag>, p: nat,
                   st: Reading, c: nat)
    returns (st': Reading, c': nat)
    requires |goals| == |names| == |ks| && forall j :: 0 <= j < |names| ==> names[j] in chunks
    requires p < |s| && st.Reading? && 0 < |st.texts| <= |names|
    requires var j := |st.texts| - 1;
             var n := names[j];
             && ks[j] <= MAX_FOLLOWED && c < Followed(chunks[n], ks[j])
             && s[p] == Tag(TagName(n, c), chunks[n][c])
             && OnCourse(chunks[n], ks[j], goals[j], st.texts[j], c)
             && Awaited(s, names, ks, j, chunks[n], p + 1, c + 1)
    requires Starts(s, names, p + 1, |st.texts|) && GoalsMet(goals, st.texts, |st.texts| - 1)
    ensures st' == ReadEntry(st, s[p]) && Inv(chunks, names, ks, goals, s, p + 1, st', c')
  {
    var j := |st.texts| - 1;
    var text;
    st', text, c' := ReadsEntry(names[j], chunks[names[j]], ks[j], goals[j], c, st, s[p]);
    if st'.Reading? {
      forall i ensures GoalMet(goals, st'.texts, j, i) { assert GoalMet(goals, st.texts, j, i); }
    }
  }

  /** With no followed chunk ahead, the key being read is complete. */
  lemma CurrentIsComplete(chunks: Chunked, names: seq<string>, ks: seq<nat>, goals: seq<Option<string>>, s: seq<Tag>,
                          p: nat, st: Reading, c: nat)
    requires |goals| == |names| == |ks| && forall j :: 0 <= j < |names| ==> names[j] in chunks
    requires st.Reading? && st.texts != [] && Inv(chunks, names, ks, goals, s, p, st, c)
    requires var n := names[|st.texts| - 1];
             c < Followed(chunks[n], ks[|st.texts| - 1]) ==> !Placed(s, TagName(n, c), p, true)
    ensures goals[|st.texts| - 1] == Some(st.texts[|st.texts| - 1])
  {
    var j := |st.texts| - 1;
    if c > 0 { CourseEnds(chunks[names[j]], ks[j], goals[j], st.texts[j]); }
  }

  lemma StartReads(st: Reading, t: Tag)
    requires st.Reading? && LooksLikeStart(t.key)
    ensures ReadStep(st, t) == ReadEntry(Reading(t.key, st.texts + [""]), t)
  {
  }

  lemma PreviousIsComplete(chunks: Chunked, names: seq<string>, ks: seq<nat>, goals: seq<Option<string>>, s: seq<Tag>,
                           p: nat, st: Reading, c: nat)
    requires Setup(chunks, names, ks, s) && |goals| == |names| && p <= |s|
    requires st.Reading? && Inv(chunks, names, ks, goals, s, p, st, c)
    requires p < |s| ==> |st.texts| < |names| && s[p].key == TagName(names[|st.texts|], 0)
    ensures GoalsMet(goals, st.texts, |st.texts|)
  {
    var m := |st.texts|;
    if m > 0 {
      if c < Followed(chunks[names[m - 1]], ks[m - 1]) { NoChunkAhead(chunks, names, ks, s, p, m - 1, c); }
      CurrentIsComplete(chunks, names, ks, goals, s, p, st, c);
    }
    forall i ensures GoalMet(goals, st.texts, m, i) { assert GoalMet(goals, st.texts, m - 1, i); }
  }

  /** The first chunk of a key: what reading it needs. */
  lemma FirstChunk(chunks: Chunked, names: seq<string>, ks: seq<nat>, s: seq<Tag>, p: nat, j: nat)
    requires Setup(chunks, names, ks, s) && p < |s| && j < |names| && s[p].key == TagName(names[j], 0)
    ensures var n := names[j];
            && ks[j] <= MAX_FOLLOWED && 0 < Followed(chunks[n], ks[j])
            && s[p] == Tag(TagName(n, 0), chunks[n][0])
            && OnCourse(chunks[n], ks[j], Goals(chunks, names, ks)[j], "", 0)
            && Awaited(s, names, ks, j, chunks[n], p + 1, 1)
  {
    ChunkExists(chunks, s, p, names[j], 0);
    SpanBounds(names, ks, j);
    NextAwaited(chunks, names, ks, s, p, j, 0);
    CourseStarts(chunks[names[j]], ks[j]);
  }

  lemma StartStep(chunks: Chunked, names: seq<string>, ks: seq<nat>, goals: seq<Option<string>>, s: seq<Tag>,
                  p: nat, st: Reading, c: nat, j: nat)
    returns (st': Reading, c': nat)
    requires Setup(chunks, names, ks, s) && goals == Goals(chunks, names, ks) && p < |s|
    requires st.Reading? && Inv(chunks, names, ks, goals, s, p, st, c)
    requires j < |names| && s[p].key == TagName(names[j], 0) && LooksLikeStart(s[p].key)
    ensures st' == ReadStep(st, s[p]) && Inv(chunks, names, ks, goals, s, p + 1, st', c')
  {
    var m := |st.texts|;
    StartIsNext(chunks, names, ks, s, p, m, j);
    PreviousIsComplete(chunks, names, ks, goals, s, p, st, c);
    StartsMove(chunks, names, ks, s, p, m);
    FirstChunk(chunks, names, ks, s, p, j);
    StartReads(st, s[p]);
    var texts := st.texts + [""];
    forall i ensures GoalMet(goals, texts, m, i) { assert GoalMet(goals, st.texts, m, i); }
    st', c' := ReadsChunk(chunks, names, ks, goals, s, p, Reading(s[p].key, texts), 0);
  }

  /** A chunk that is waited for and met is one to be followed. */
  lemma MetIsFollowed(chunks: Chunked, names: seq<string>, ks: seq<nat>, goals: seq<Option<string>>, s: seq<Tag>,
                      p: nat, st: Reading, c: nat)
    requires Setup(chunks, names, ks, s) && |goals| == |names| && p < |s|
    requires st.Reading? && Inv(chunks, names, ks, goals, s, p, st, c)
    requires HasPrefix(s[p].key, "tarmak.io/") && st.next == s[p].key
    ensures st.texts != [] && c > 0
    ensures var j := |st.texts| - 1;
            var n := names[j];
            c < Followed(chunks[n], ks[j]) && s[p] == Tag(TagName(n, c), chunks[n][c])
  {
    var j := |st.texts| - 1;
    ChunkExists(chunks, s, p, names[j], c);
    if c >= Followed(chunks[names[j]], ks[j]) { NotMet(chunks, names, ks, s, p, j + 1, st.next); }
  }

  lemma FollowStep(chunks: Chunked, names: seq<string>, ks: seq<nat>, goals: seq<Option<string>>, s: seq<Tag>, p: nat,
                   st: Reading, c: nat)
    returns (st': Reading, c': nat)
    requires Setup(chunks, names, ks, s) && goals == Goals(chunks, names, ks) && p < |s|
    requires st.Reading? && Inv(chunks, names, ks, goals, s, p, st, c)
    requires !LooksLikeStart(s[p].key) && HasPrefix(s[p].key, "tarmak.io/") && st.next == s[p].key
    ensures st' == ReadStep(st, s[p]) && Inv(chunks, names, ks, goals, s, p + 1, st', c')
  {
    StartsStay(chunks, names, ks, s, p, |st.texts|);
    MetIsFollowed(chunks, names, ks, goals, s, p, st, c);
    SpanBounds(names, ks, |st.texts| - 1);
    NextAwaited(chunks, names, ks, s, p, |st.texts| - 1, c);
    st', c' := ReadsChunk(chunks, names, ks, goals, s, p, st, c);
  }

  /** A tag that is neither a start nor the chunk waited for changes nothing. */
  lemma SkipStep(chunks: Chunked, names: seq<string>, ks: seq<nat>, goals: seq<Option<string>>, s: seq<Tag>, p: nat,
                 st: Reading, c: nat)
    requires Setup(chunks, names, ks, s) && goals == Goals(chunks, names, ks) && p < |s|
    requires st.Reading? && Inv(chunks, names, ks, goals, s, p, st, c)
    requires !LooksLikeStart(s[p].key) && !(HasPrefix(s[p].key, "tarmak.io/") && st.next == s[p].key)
    ensures ReadStep(st, s[p]) == st && Inv(chunks, names, ks, goals, s, p + 1, st, c)
  {
    StartsStay(chunks, names, ks, s, p, |st.texts|);
    if |st.texts| > 0 && c > 0 {
      var n := names[|st.texts| - 1];
      SpanBounds(names, ks, |st.texts| - 1);
      TagNameParts(n, c);
      if c < Followed(chunks[n], ks[|st.texts| - 1]) { PlacedMoves(s, st.next, p, true); }
    }
  }

  lemma FindStart(chunks: Chunked, names: seq<string>, ks: seq<nat>, s: seq<Tag>, p: nat) returns (j: nat)
    requires Setup(chunks, names, ks, s) && p < |s| && LooksLikeStart(s[p].key)
    ensures j < |names| && s[p].key == TagName(names[j], 0)
  {
    assert Accounted(chunks, s, s[p]);
    var n, i: nat :| IsChunk(chunks, s[p], n, i);
    StartTags(n, i);
    assert Listed(chunks, names, n);
    j :| 0 <= j < |names| && names[j] == n;
  }

  lemma AnyStep(chunks: Chunked, names: seq<string>, ks: seq<nat>, goals: seq<Option<string>>, s: seq<Tag>, p: nat,
                st: Reading, c: nat)
    returns (st': Reading, c': nat)
    requires Setup(chunks, names, ks, s) && goals == Goals(chunks, names, ks) && p < |s|
    requires Inv(chunks, names, ks, goals, s, p, st, c)
    ensures st' == ReadStep(st, s[p]) && Inv(chunks, names, ks, goals, s, p + 1, st', c')
  {
    if st.Panicked? {
      st', c' := st, c;
    } else if LooksLikeStart(s[p].key) {
      var j := FindStart(chunks, names, ks, s, p);
      st', c' := StartStep(chunks, names, ks, goals, s, p, st, c, j);
    } else if HasPrefix(s[p].key, "tarmak.io/") && st.next == s[p].key {
      st', c' := FollowStep(chunks, names, ks, goals, s, p, st, c);
    } else {
      SkipStep(chunks, names, ks, goals, s, p, st, c);
      st', c' := st, c;
    }
  }

  lemma AtTheStart(chunks: Chunked, names: seq<string>, ks: seq<nat>, goals: seq<Option<string>>, s: seq<Tag>)
    requires |goals| == |names| == |ks| && forall j :: 0 <= j < |names| ==> names[j] in chunks
    ensures Inv(chunks, names, ks, goals, s, 0, Reading("", []), 0)
  {
    forall j ensures StartAt(s, names, 0, 0, j) {}
    forall j ensures GoalMet(goals, [], -1, j) {}
  }

  lemma NextStep(chunks: Chunked, names: seq<string>, ks: seq<nat>, goals: seq<Option<string>>, s: seq<Tag>, p: nat,
                 c: nat)
    returns (c': nat)
    requires Setup(chunks, names, ks, s) && goals == Goals(chunks, names, ks) && p < |s|
    requires Inv(chunks, names, ks, goals, s, p, ReadTo(s, p), c)
    ensures Inv(chunks, names, ks, goals, s, p + 1, ReadTo(s, p + 1), c')
  {
    var st';
    st', c' := AnyStep(chunks, names, ks, goals, s, p, ReadTo(s, p), c);
  }

  ghost predicate Reads(chunks: Chunked, names: seq<string>, ks: seq<nat>, s: seq<Tag>, p: nat)
    requires |ks| == |names| && (forall j :: 0 <= j < |names| ==> names[j] in chunks) && p <= |s|
  {
    exists c :: Inv(chunks, names, ks, Goals(chunks, names, ks), s, p, ReadTo(s, p), c)
  }

  lemma NextReads(chunks: Chunked, names: seq<string>, ks: seq<nat>, s: seq<Tag>, p: nat)
    requires Setup(chunks, names, ks, s) && p < |s| && Reads(chunks, names, ks, s, p)
    ensures Reads(chunks, names, ks, s, p + 1)
  {
    var c :| Inv(chunks, names, ks, Goals(chunks, names, ks), s, p, ReadTo(s, p), c);
    var c' := NextStep(chunks, names, ks, Goals(chunks, names, ks), s, p, c);
  }

  lemma ReadsAll(chunks: Chunked, names: seq<string>, ks: seq<nat>, s: seq<Tag>)
    requires Setup(chunks, names, ks, s)
    ensures Reads(chunks, names, ks, s, |s|)
  {
    AtTheStart(chunks, names, ks, Goals(chunks, names, ks), s);
    assert ReadTo(s, 0) == Reading("", []);
    for p := 0 to |s|
      invariant Reads(chunks, names, ks, s, p)
    {
      NextReads(chunks, names, ks, s, p);
    }
  }

  /* ---------- the theorems ---------- */

  /** Each key is read on its own: whatever else is on the instance and however long the
      keys are, the result lists, in tag order, what each key alone reads back as when as
      many of its chunks are followed as come before the next key starts; and the reader
      crashes only if one of the keys alone makes it crash. */
  lemma ReadsEachKeyAlone(chunks: Chunked, names: seq<string>, ks: seq<nat>, s: seq<Tag>)
    requires Setup(chunks, names, ks, s)
    ensures match Reassemble(s)
            case None => None in Goals(chunks, names, ks)
            case Some(texts) =>
              |texts| == |names| && forall j :: 0 <= j < |names| ==> Goals(chunks, names, ks)[j] == Some(texts[j])
  {
    var goals := Goals(chunks, names, ks);
    var st := ReadTo(s, |s|);
    ReadsAll(chunks, names, ks, s);
    var c :| Inv(chunks, names, ks, goals, s, |s|, st, c);
    if st.Reading? {
      AllStarted(chunks, names, ks, s, |st.texts|);
      PreviousIsComplete(chunks, names, ks, goals, s, |s|, st, c);
      forall j | 0 <= j < |names| ensures goals[j] == Some(st.texts[j]) {
        assert GoalMet(goals, st.texts, |names|, j);
      }
    }
  }

  lemma AllStarted(chunks: Chunked, names: seq<string>, ks: seq<nat>, s: seq<Tag>, m: nat)
    requires Setup(chunks, names, ks, s) && m <= |names|
    requires Starts(s, names, |s|, m)
    ensures m == |names|
  {
    if m < |names| {
      assert StartAt(s, names, |s|, m, m);
      var q := FindChunk(chunks, s, names[m], 0);
      assert false;
    }
  }

  lemma TwoPositions(a: seq<Tag>, x: Tag)
    requires multiset(a)[x] >= 2
    ensures exists i, j :: 0 <= i < j < |a| && a[i] == x && a[j] == x
  {
    assert x in a;
    var i :| 0 <= i < |a| && a[i] == x;
    assert a == a[..i] + [x] + a[i + 1..];
    assert x in a[..i] || x in a[i + 1..];
    if x in a[..i] {
      var j :| 0 <= j < i && a[..i][j] == x;
      assert a[j] == x;
    } else {
      var j :| 0 <= j < |a| - i - 1 && a[i + 1..][j] == x;
      assert a[i + 1 + j] == x;
    }
  }

  lemma SortingKeepsUnique(tags: seq<Tag>, s: seq<Tag>)
    requires UniqueKeys(tags) && multiset(s) == multiset(tags)
    ensures UniqueKeys(s)
  {
    forall i, j | 0 <= i < j < |s| ensures s[i].key != s[j].key {
      assert s[i] in multiset(tags) && s[j] in multiset(tags);
      if s[i] == s[j] {
        assert s == s[..i] + [s[i]] + s[i + 1..j] + [s[j]] + s[j + 1..];
        assert multiset(s)[s[i]] >= 2;
        TwoPositions(tags, s[i]);
      }
      var x :| 0 <= x < |tags| && tags[x] == s[i];
      var y :| 0 <= y < |tags| && tags[y] == s[j];
    }
  }

  lemma SortedIsSetup(chunks: Chunked, names: seq<string>, ks: seq<nat>, tags: seq<Tag>, s: seq<Tag>)
    requires KeyFileNames(chunks.Keys) && InTagOrder(chunks, names) && Carries(chunks, tags)
    requires Spans(names, ks) && forall n :: n in chunks ==> chunks[n] != []
    requires multiset(s) == multiset(tags) && SortedBy(s, KeyOf)
    ensures Setup(chunks, names, ks, s)
  {
    SortingKeepsUnique(tags, s);
    forall n, i: nat ensures Stored(chunks, s, n, i) {
      assert Stored(chunks, tags, n, i);
      if n in chunks && i < |chunks[n]| { assert Tag(TagName(n, i), chunks[n][i]) in multiset(s); }
    }
    forall t ensures Accounted(chunks, s, t) {
      assert Accounted(chunks, tags, t);
      if t in s { assert t in multiset(tags); }
    }
    forall i, j ensures ComesBefore(s, i, j) {
      if 0 <= i < j < |s| {
        assert AtMost(KeyOf(s[i]), KeyOf(s[j]));
        LessTotal(s[i].key, s[j].key);
      }
    }
  }

  /** Every key came back, in the order of `names`, without its last byte. */
  ghost predicate AllRestored(keys: PublicKeys, names: seq<string>, result: Option<seq<string>>)
    requires forall j :: 0 <= j < |names| ==> names[j] in keys
  {
    && result.Some?
    && |result.value| == |names|
    && forall j :: 0 <= j < |names| ==>
         keys[names[j]] != "" && result.value[j] == DropLast(keys[names[j]])
  }

  /** The round trip when all the names end in `key`. */
  lemma KeyFilesRoundTrip(keys: PublicKeys, names: seq<string>, tags: seq<Tag>, s: seq<Tag>)
    requires KeyFileNames(keys.Keys) && InTagOrder(ChunkedOf(keys), names) && Carries(ChunkedOf(keys), tags)
    requires multiset(s) == multiset(tags) && SortedBy(s, KeyOf)
    ensures AllRestored(keys, names, Reassemble(s)) <==> AllRestorable(keys, names)
    ensures Reassemble(s) == None <==> SomePanics(keys, names)
  {
    var chunks := ChunkedOf(keys);
    assert chunks.Keys == keys.Keys;
    var ks := seq(|names|, j requires 0 <= j < |names| => Span(names, j));
    assert Spans(names, ks);
    SortedIsSetup(chunks, names, ks, tags, s);
    ReadsEachKeyAlone(chunks, names, ks, s);
    GoalsExactly(keys, names, ks);
  }

  lemma GoalsExactly(keys: PublicKeys, names: seq<string>, ks: seq<nat>)
    requires Spans(names, ks) && forall j :: 0 <= j < |names| ==> names[j] in keys
    ensures forall j :: 0 <= j < |names| ==>
              && (keys[names[j]] != "" && Goals(ChunkedOf(keys), names, ks)[j] == Some(DropLast(keys[names[j]])) <==>
                    Restorable(keys[names[j]], Span(names, j)))
              && (Goals(ChunkedOf(keys), names, ks)[j] == None <==> Panics(keys[names[j]], Span(names, j)))
  {
    forall j | 0 <= j < |names|
      ensures keys[names[j]] != "" && Goals(ChunkedOf(keys), names, ks)[j] == Some(DropLast(keys[names[j]])) <==>
                Restorable(keys[names[j]], Span(names, j))
      ensures Goals(ChunkedOf(keys), names, ks)[j] == None <==> Panics(keys[names[j]], Span(names, j))
    {
      assert SpanOk(names, ks, j);
      ReadChunksExact(keys[names[j]], Span(names, j));
      PanicsExactly(keys[names[j]], Span(names, j));
    }
  }

  /** Reading some key alone, with the chunks before the next key, panics. */
  ghost predicate SomePanics(keys: PublicKeys, names: seq<string>)
    requires forall j :: 0 <= j < |names| ==> names[j] in keys
  {
    exists j :: 0 <= j < |names| && Panics(keys[names[j]], Span(names, j))
  }

  /** Each key can be read back from the chunks that come before the next key starts. */
  ghost predicate AllRestorable(keys: PublicKeys, names: seq<string>)
    requires forall j :: 0 <= j < |names| ==> names[j] in keys
  {
    forall j :: 0 <= j < |names| ==> Restorable(keys[names[j]], Span(names, j))
  }

  /** If no name extends another by a dash, all ten chunks come before the next key. */
  lemma SeparatedSpan(names: seq<string>, all: set<string>, j: nat)
    requires j < |names| && Separated(all) && forall i :: 0 <= i < |names| ==> names[i] in all
    requires StartsBefore(names, j, j + 1)
    ensures Span(names, j) == MAX_FOLLOWED
  {
    if j + 1 < |names| && Span(names, j) < MAX_FOLLOWED {
      var n, n' := names[j], names[j + 1];
      LessIrreflexive(TagName(n, 0));
      TagsDoNotInterleave(all, n, Span(names, j), n', 0);
    }
  }

  /** A key whose name does not end in `key` is lost: to the reader its tags are unrelated. */
  lemma OtherNamesAreUnrelated(chunks: Chunked, name: string, i: nat)
    requires name !in chunks && !HasSuffix(TAG_PREFIX + "/" + name, "key")
    ensures Unrelated(chunks, TagName(name, i))
  {
    StartTags(name, i);
    forall n, j: nat | n in chunks ensures TagName(name, i) != TagName(n, j) {
      if TagName(name, i) == TagName(n, j) { TagNameInjective(name, i, n, j); }
    }
  }

  /* ---------- any names ---------- */

  /** The keys the reader looks for: those whose name ends in `key`. */
  function KeyFiles(keys: PublicKeys): PublicKeys {
    map n | n in keys && HasSuffix(n, "key") :: keys[n]
  }

  lemma SuffixOfName(name: string)
    ensures HasSuffix(TAG_PREFIX + "/" + name, "key") <==> HasSuffix(name, "key")
  {
    var full := TAG_PREFIX + "/" + name;
    assert full[|TAG_PREFIX|] == '/';
    if |name| >= 3 {
      assert full[|full| - 3..] == name[|name| - 3..];
    } else {
      assert full[|full| - 3..][2 - |name|] == '/';
    }
  }

  lemma CarriesKeyFiles(keys: PublicKeys, tags: seq<Tag>)
    requires Carries(ChunkedOf(keys), tags)
    ensures Carries(ChunkedOf(KeyFiles(keys)), tags)
  {
    var all, some := ChunkedOf(keys), ChunkedOf(KeyFiles(keys));
    forall n, i: nat ensures Stored(some, tags, n, i) { assert Stored(all, tags, n, i); }
    forall t ensures Accounted(some, tags, t) {
      assert Accounted(all, tags, t);
      if t in tags && !Unrelated(all, t.key) {
        var n, i: nat :| IsChunk(all, t, n, i);
        SuffixOfName(n);
        if HasSuffix(n, "key") {
          assert IsChunk(some, t, n, i);
        } else {
          OtherNamesAreUnrelated(some, n, i);
        }
      }
    }
  }

  /** The round trip: for any keys, any order of the instance's tags and any unrelated tags
      among them, sorting and reassembling yields the data of each key whose name ends in
      `key`, without its last byte, in tag order, if and only if each of these is restorable
      from the chunks before the next one starts; the others are never looked at. */
  lemma RoundTrip(keys: PublicKeys, names: seq<string>, tags: seq<Tag>, s: seq<Tag>)
    requires InTagOrder(ChunkedOf(KeyFiles(keys)), names)
    requires Carries(ChunkedOf(keys), tags) && multiset(s) == multiset(tags) && SortedBy(s, KeyOf)
    ensures AllRestored(KeyFiles(keys), names, Reassemble(s)) <==> AllRestorable(KeyFiles(keys), names)
  {
    CarriesKeyFiles(keys, tags);
    forall n ensures IsKeyFile(KeyFiles(keys).Keys, n) {}
    KeyFilesRoundTrip(KeyFiles(keys), names, tags, s);
  }

  /** The reader itself panics if and only if one of the keys it looks for does alone, with
      the chunks before the next key. */
  lemma ReaderPanicsExactly(keys: PublicKeys, names: seq<string>, tags: seq<Tag>, s: seq<Tag>)
    requires InTagOrder(ChunkedOf(KeyFiles(keys)), names)
    requires Carries(ChunkedOf(keys), tags) && multiset(s) == multiset(tags) && SortedBy(s, KeyOf)
    ensures Reassemble(s) == None <==> SomePanics(KeyFiles(keys), names)
  {
    CarriesKeyFiles(keys, tags);
    forall n ensures IsKeyFile(KeyFiles(keys).Keys, n) {}
    KeyFilesRoundTrip(KeyFiles(keys), names, tags, s);
  }

  /** For names that do not extend each other by a dash the condition is on each key alone. */
  lemma SeparatedRoundTrip(keys: PublicKeys, names: seq<string>, tags: seq<Tag>, s: seq<Tag>)
    requires Separated(KeyFiles(keys).Keys) && InTagOrder(ChunkedOf(KeyFiles(keys)), names)
    requires Carries(ChunkedOf(keys), tags) && multiset(s) == multiset(tags) && SortedBy(s, KeyOf)
    ensures AllRestored(KeyFiles(keys), names, Reassemble(s)) <==>
              forall n :: n in KeyFiles(keys) ==> Restorable(keys[n])
  {
    RoundTrip(keys, names, tags, s);
    SeparatedRestorable(KeyFiles(keys), names);
  }

  lemma SeparatedRestorable(keys: PublicKeys, names: seq<string>)
    requires Separated(keys.Keys) && InTagOrder(ChunkedOf(keys), names)
    ensures AllRestorable(keys, names) <==> forall n :: n in keys ==> Restorable(keys[n])
  {
    forall j | 0 <= j < |names| ensures Span(names, j) == MAX_FOLLOWED {
      assert StartsBefore(names, j, j + 1);
      SeparatedSpan(names, keys.Keys, j);
    }
    if AllRestorable(keys, names) {
      forall n | n in keys ensures Restorable(keys[n]) {
        assert Listed(ChunkedOf(keys), names, n);
        var j :| 0 <= j < |names| && names[j] == n;
      }
    }
  }

  /* ---------- the keys can be listed in tag order ---------- */

  lemma {:induction false} LeastName(names: set<string>) returns (least: string)
    requires names != {}
    ensures least in names
    ensures forall n :: n in names && n != least ==> Less(TagName(least, 0), TagName(n, 0))
    decreases |names|
  {
    var x :| x in names;
    least := x;
    if names != {x} {
      var rest := names - {x};
      assert rest != {};
      var y := LeastName(rest);
      LessTotal(TagName(x, 0), TagName(y, 0));
      if TagName(x, 0) == TagName(y, 0) { TagNameInjective(x, 0, y, 0); }
      if Less(TagName(y, 0), TagName(x, 0)) { least := y; }
      forall n | n in names && n != least ensures Less(TagName(least, 0), TagName(n, 0)) {
        if least == x && n != y { LessTransitive(TagName(x, 0), TagName(y, 0), TagName(n, 0)); }
      }
    }
  }

  lemma {:induction false} ListNames(all: set<string>) returns (names: seq<string>)
    ensures forall n :: n in names <==> n in all
    ensures forall i, j :: StartsBefore(names, i, j)
    decreases |all|
  {
    names := [];
    if all != {} {
      var least := LeastName(all);
      var rest := ListNames(all - {least});
      names := [least] + rest;
      forall i, j ensures StartsBefore(names, i, j) {
        assert StartsBefore(rest, i - 1, j - 1);
        if i == 0 && 0 < j < |names| { assert names[j] in rest; }
      }
    }
  }

  /** So the round trip speaks about every set of keys. */
  lemma TagOrderExists(chunks: Chunked) returns (names: seq<string>)
    ensures InTagOrder(chunks, names)
  {
    names := ListNames(chunks.Keys);
    forall n ensures Listed(chunks, names, n) {}
  }
}
