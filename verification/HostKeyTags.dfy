/** The host-key tag codec.

    The tagging control function splits each SSH public key, followed by an end marker,
    into EC2 tags of at most 255 bytes. Another package reads an instance's tags back,
    in an arbitrary order and mixed with unrelated tags, and rebuilds the keys. */
module HostKeyTags {
  import opened Text

  const EOF := "==EOF"
  const TAG_PREFIX := "tarmak.io"
  const TAG_SIZE := 255

  /** The largest value of a Go `int64`. */
  const MAX_INT64 := 0x7fff_ffff_ffff_ffff

  datatype Tag = Tag(key: string, value: string)

  /** The request's `PublicKeys`: file name of the key to file contents. */
  type PublicKeys = map<string, string>

  /** The tag values of each key, by chunk number. */
  type Chunked = map<string, seq<string>>

  /* ---------- the writer ---------- */

  /** A string cut into pieces of 255 bytes, the last one possibly shorter. */
  function Pieces(m: string): seq<string> {
    if m == "" then []
    else if |m| <= TAG_SIZE then [m]
    else [m[..TAG_SIZE]] + Pieces(m[TAG_SIZE..])
  }

  function Values(data: string): seq<string> {
    Pieces(data + EOF)
  }

  function ChunkedOf(keys: PublicKeys): Chunked {
    map n | n in keys :: Values(keys[n])
  }

  function TagName(name: string, i: nat): string {
    TAG_PREFIX + "/" + name + "-" + Decimal(i)
  }

  /** `t` is chunk `i` of the key called `name`. */
  predicate IsChunk(chunks: Chunked, t: Tag, name: string, i: nat) {
    name in chunks && i < |chunks[name]| && t == Tag(TagName(name, i), chunks[name][i])
  }

  predicate HasTag(tags: map<string, string>, t: Tag) {
    t.key in tags && tags[t.key] == t.value
  }

  predicate Present(chunks: Chunked, tags: map<string, string>, name: string, i: nat) {
    name in chunks && i < |chunks[name]| ==> HasTag(tags, Tag(TagName(name, i), chunks[name][i]))
  }

  ghost predicate Explained(chunks: Chunked, tags: map<string, string>, k: string) {
    k in tags ==> exists name, i: nat :: IsChunk(chunks, Tag(k, tags[k]), name, i)
  }

  /** `tags` holds every chunk of every key and nothing else. */
  ghost predicate Written(chunks: Chunked, tags: map<string, string>) {
    && (forall name, i: nat :: Present(chunks, tags, name, i))
    && (forall k :: Explained(chunks, tags, k))
  }

  /** No two (name, index) pairs share a tag. */
  lemma TagNameInjective(m: string, i: nat, n: string, j: nat)
    requires TagName(m, i) == TagName(n, j)
    ensures m == n && i == j
  {
    var p := TAG_PREFIX + "/";
    NumberedInjective(p + m, i, p + n, j);
    assert (p + m)[|p|..] == m && (p + n)[|p|..] == n;
  }

  /** The map `createTags` builds does not depend on the order it visits the keys in. */
  lemma WrittenUnique(chunks: Chunked, a: map<string, string>, b: map<string, string>)
    requires Written(chunks, a) && Written(chunks, b)
    ensures a == b
  {
    WrittenIncluded(chunks, a, b);
    WrittenIncluded(chunks, b, a);
    assert a.Keys == b.Keys;
  }

  lemma WrittenIncluded(chunks: Chunked, a: map<string, string>, b: map<string, string>)
    requires Written(chunks, a) && Written(chunks, b)
    ensures forall k :: k in a ==> k in b && a[k] == b[k]
  {
    forall k | k in a ensures k in b && a[k] == b[k] {
      assert Explained(chunks, a, k);
      var name, i: nat :| IsChunk(chunks, Tag(k, a[k]), name, i);
      assert Present(chunks, b, name, i);
    }
  }

  /** Storing one more chunk of the key `name`. */
  lemma WrittenStep(chunks: Chunked, tags: map<string, string>, name: string, v: string)
    requires Written(chunks, tags) && name in chunks
    ensures Written(chunks[name := chunks[name] + [v]], tags[TagName(name, |chunks[name]|) := v])
  {
    var c := |chunks[name]|;
    var chunks' := chunks[name := chunks[name] + [v]];
    var tags' := tags[TagName(name, c) := v];
    forall n, i: nat ensures Present(chunks', tags', n, i) {
      assert Present(chunks, tags, n, i);
      if TagName(n, i) == TagName(name, c) { TagNameInjective(n, i, name, c); }
    }
    forall k ensures Explained(chunks', tags', k) {
      assert Explained(chunks, tags, k);
      if k == TagName(name, c) {
        assert IsChunk(chunks', Tag(k, tags'[k]), name, c);
      } else if k in tags {
        var n, i: nat :| IsChunk(chunks, Tag(k, tags[k]), n, i);
        assert IsChunk(chunks', Tag(k, tags'[k]), n, i);
      }
    }
  }

  lemma WrittenNoChunks(chunks: Chunked, tags: map<string, string>, name: string)
    requires Written(chunks, tags) && name !in chunks
    ensures Written(chunks[name := []], tags)
  {
    var chunks' := chunks[name := []];
    forall n, i: nat ensures Present(chunks', tags, n, i) {
      assert Present(chunks, tags, n, i);
    }
    forall k ensures Explained(chunks', tags, k) {
      assert Explained(chunks, tags, k);
      if k in tags {
        var n, i: nat :| IsChunk(chunks, Tag(k, tags[k]), n, i);
        assert IsChunk(chunks', Tag(k, tags[k]), n, i);
      }
    }
  }

  /** The pieces that start at offset `i`. */
  function PiecesFrom(m: string, i: nat): seq<string> {
    if i < |m| then Pieces(m[i..]) else []
  }

  lemma PiecesStep(m: string, i: nat)
    requires i < |m|
    ensures var end := if i + TAG_SIZE > |m| then |m| else i + TAG_SIZE;
            PiecesFrom(m, i) == [m[i..end]] + PiecesFrom(m, i + TAG_SIZE)
  {
    var t := m[i..];
    if |t| > TAG_SIZE {
      assert t[..TAG_SIZE] == m[i..i + TAG_SIZE] && t[TAG_SIZE..] == m[i + TAG_SIZE..];
    } else {
      assert Pieces(t) == [t] + [] && t == m[i..|m|];
    }
  }

  /** `createTags`: the outer loop visits the map in an arbitrary order. */
  method CreateTags(publicKeys: PublicKeys) returns (tags: map<string, string>)
    ensures Written(ChunkedOf(publicKeys), tags)
  {
    tags := map[];
    var left := publicKeys.Keys;
    assert Written(Done(publicKeys, left), tags);
    while left != {}
      invariant left <= publicKeys.Keys
      invariant Written(Done(publicKeys, left), tags)
      decreases |left|
    {
      var name :| name in left;
      tags := SplitKey(Done(publicKeys, left), tags, name, publicKeys[name]);
      DoneStep(publicKeys, left, name);
      left := left - {name};
    }
    assert Done(publicKeys, {}) == ChunkedOf(publicKeys);
  }

  /** The chunks of the keys not in `left`. */
  ghost function Done(keys: PublicKeys, left: set<string>): Chunked {
    map n | n in keys && n !in left :: Values(keys[n])
  }

  lemma DoneStep(keys: PublicKeys, left: set<string>, name: string)
    requires name in left && name in keys
    ensures Done(keys, left)[name := Values(keys[name])] == Done(keys, left - {name})
  {
  }

  /** The inner loop of `createTags`: adds the chunks of one key. */
  method SplitKey(ghost done: Chunked, tags: map<string, string>, name: string, data: string)
    returns (tags': map<string, string>)
    requires Written(done, tags) && name !in done
    ensures Written(done[name := Values(data)], tags')
  {
    var marked := data + EOF;
    tags' := tags;
    var i := 0;
    ghost var vs: seq<string> := [];
    WrittenNoChunks(done, tags, name);
    assert marked[0..] == marked && [] + Values(data) == Values(data);
    while i < |marked|
      invariant i == TAG_SIZE * |vs|
      invariant Written(done[name := vs], tags')
      invariant vs + PiecesFrom(marked, i) == Values(data)
    {
      var end := i + TAG_SIZE;
      if end > |marked| {
        end := |marked|;
      }
      var tagName := TAG_PREFIX + "/" + name + "-" + Decimal(i / TAG_SIZE);
      assert tagName == TagName(name, |vs|);
      PiecesStep(marked, i);
      assert vs + PiecesFrom(marked, i) == (vs + [marked[i..end]]) + PiecesFrom(marked, i + TAG_SIZE);
      WrittenStep(done[name := vs], tags', name, marked[i..end]);
      tags' := tags'[tagName := marked[i..end]];
      ghost var vs' := vs + [marked[i..end]];
      assert done[name := vs][name := vs'] == done[name := vs'];
      vs := vs';
      i := i + TAG_SIZE;
    }
    assert vs + [] == vs;
  }

  function Concat(vs: seq<string>): string {
    if vs == [] then "" else vs[0] + Concat(vs[1..])
  }

  /** Splitting loses nothing: the pieces, none empty and none over the tag limit, join up
      to the string that was cut. */
  lemma {:induction false} PiecesConserve(m: string)
    ensures Concat(Pieces(m)) == m
    ensures forall v :: v in Pieces(m) ==> 0 < |v| <= TAG_SIZE
  {
    if |m| > TAG_SIZE {
      PiecesConserve(m[TAG_SIZE..]);
      assert Pieces(m)[1..] == Pieces(m[TAG_SIZE..]);
    } else if m != "" {
      assert Pieces(m)[1..] == [];
    }
  }

  /* ---------- the reader ---------- */

  /** The variables of the reassembly loop, or the Go run-time panic that ends it. */
  datatype Reading = Reading(next: string, texts: seq<string>) | Panicked

  /** `strconv.ParseInt(s, 10, 64)` on strings without a sign. */
  function ParseInt(s: string): Option<nat> {
    if s != "" && AllDigits(s) && ParseDigits(s) <= MAX_INT64 then Some(ParseDigits(s)) else None
  }

  /** `%d` of an `int64` plus one, which wraps around. */
  function SuccessorText(v: nat): string {
    if v == MAX_INT64 then "-" + Decimal(MAX_INT64 + 1) else Decimal(v + 1)
  }

  function AppendToLast(texts: seq<string>, next: string, piece: string): Reading {
    if texts == [] then Panicked else Reading(next, texts[|texts| - 1 := texts[|texts| - 1] + piece])
  }

  predicate LooksLikeStart(key: string) {
    HasPrefix(key, "tarmak.io/") && HasSuffix(key, "key-0")
  }

  /** One iteration of the loop over the sorted tags. */
  function ReadStep(st: Reading, t: Tag): Reading {
    if st.Panicked? || !HasPrefix(t.key, "tarmak.io/") then st
    else
      var st' := if LooksLikeStart(t.key) then Reading(t.key, st.texts + [""]) else st;
      if st'.next != t.key then st' else ReadEntry(st', t)
  }

  function ReadEntry(st: Reading, t: Tag): Reading
    requires st.Reading?
  {
    if HasSuffix(t.value, EOF) then
      // one byte more than the marker is cut off
      if |t.value| < |EOF| + 1 then Panicked
      else AppendToLast(st.texts, "", t.value[..|t.value| - (|EOF| + 1)])
    else
      match ParseInt(Tail(t.key))
      case None => st.(next := "")
      case Some(v) => AppendToLast(st.texts, Stem(t.key) + SuccessorText(v), t.value)
  }

  function ReadTo(tags: seq<Tag>, p: nat): Reading
    requires p <= |tags|
  {
    if p == 0 then Reading("", []) else ReadStep(ReadTo(tags, p - 1), tags[p - 1])
  }

  /** The texts rebuilt from the sorted tags, `None` for a panic. */
  function Reassemble(tags: seq<Tag>): Option<seq<string>> {
    match ReadTo(tags, |tags|)
    case Panicked => None
    case Reading(_, texts) => Some(texts)
  }

  lemma {:induction false} PanicStays(tags: seq<Tag>, p: nat, q: nat)
    requires p <= q <= |tags| && ReadTo(tags, p).Panicked?
    ensures ReadTo(tags, q).Panicked?
  {
    if p < q { PanicStays(tags, p, q - 1); }
  }

  function KeyOf(t: Tag): string {
    t.key
  }

  class Host {
    var tags: seq<Tag>

    constructor (tags: seq<Tag>)
      ensures this.tags == tags
    {
      this.tags := tags;
    }

    /** The first half of `SSHHostPublicKeys`: sorts the tags in place, then rebuilds the
        text of each key. `None` is a slice or index out of range. */
    method SSHHostPublicKeys() returns (hostKeys: Option<seq<string>>)
      modifies this
      ensures multiset(tags) == multiset(old(tags)) && SortedBy(tags, KeyOf)
      ensures hostKeys == Reassemble(tags)
    {
      tags := SortBy(tags, KeyOf);
      hostKeys := RebuildTexts(tags);
    }
  }

  /** The loop over the sorted tags. */
  method RebuildTexts(sorted: seq<Tag>) returns (hostKeys: Option<seq<string>>)
    ensures hostKeys == Reassemble(sorted)
  {
    var texts: seq<string> := [];
    var nextKey := "";
    var pos := 0;
    while pos < |sorted|
      invariant pos <= |sorted| && ReadTo(sorted, pos) == Reading(nextKey, texts)
    {
      var t := sorted[pos];
      pos := pos + 1;
      if HasPrefix(t.key, "tarmak.io/") {
        if HasSuffix(t.key, "key-0") {
          texts := texts + [""];
          nextKey := t.key;
        }
        if nextKey == t.key {
          var ok;
          assert ReadTo(sorted, pos) == ReadEntry(Reading(nextKey, texts), t);
          ok, nextKey, texts := AppendEntry(t, texts);
          if !ok { PanicStays(sorted, pos, |sorted|); return None; }
        }
      }
    }
    hostKeys := Some(texts);
  }

  /** The rest of the loop body: the tag is the chunk the reader waits for. */
  method AppendEntry(t: Tag, before: seq<string>) returns (ok: bool, nextKey: string, texts: seq<string>)
    ensures ReadEntry(Reading(t.key, before), t) == if ok then Reading(nextKey, texts) else Panicked
  {
    texts := before;
    var entry := t.value;
    if HasSuffix(entry, EOF) {
      if |entry| < |EOF| + 1 { return false, "", []; }
      entry := entry[..|entry| - (|EOF| + 1)];
      nextKey := "";
    } else {
      var posKey := ParseInt(Tail(t.key));
      if posKey.None? { return true, "", texts; }
      nextKey := Stem(t.key) + SuccessorText(posKey.value);
    }
    if texts == [] { return false, "", []; }
    ok, texts := true, texts[|texts| - 1 := texts[|texts| - 1] + entry];
  }

  /* ---------- what one key reads back as ---------- */

  /** The reader follows at most this many chunks: in string order `-10` comes before `-2`. */
  const MAX_FOLLOWED: nat := 10

  /** The text the reader makes of a key's remaining chunks when it will follow `k` of them;
      `None` for a panic. */
  function ReadChunks(vs: seq<string>, k: nat): Option<string> {
    if vs == [] || k == 0 then Some("")
    else if HasSuffix(vs[0], EOF) then
      if |vs[0]| < |EOF| + 1 then None else Some(vs[0][..|vs[0]| - (|EOF| + 1)])
    else Prepend(vs[0], ReadChunks(vs[1..], k - 1))
  }

  function Prepend(v: string, r: Option<string>): Option<string> {
    match r case None => None case Some(text) => Some(v + text)
  }

  function ReadBack(vs: seq<string>): Option<string> {
    ReadChunks(vs, MAX_FOLLOWED)
  }

  function DropLast(data: string): string
    requires data != ""
  {
    data[..|data| - 1]
  }

  /** No chunk but the last ends in the marker. */
  predicate OnlyLastMarked(vs: seq<string>) {
    forall i :: 0 <= i < |vs| - 1 ==> !HasSuffix(vs[i], EOF)
  }

  /** What a caller can check beforehand: the marker is cut neither apart nor off to a chunk
      of its own, the data fits into the chunks followed (one byte over is harmless, as the
      last byte is dropped anyway), and no earlier chunk happens to end in the marker. */
  predicate Restorable(data: string, k: nat := MAX_FOLLOWED) {
    && 1 <= |data| % TAG_SIZE <= TAG_SIZE - |EOF|
    && |data| <= k * TAG_SIZE + 1
    && OnlyLastMarked(Values(data))
  }

  /** Data that fills a chunk of its own, cut off the front. */
  lemma FullChunk(data: string)
    requires |data| >= TAG_SIZE
    ensures Values(data) == [data[..TAG_SIZE]] + Values(data[TAG_SIZE..])
    ensures |data| % TAG_SIZE == |data[TAG_SIZE..]| % TAG_SIZE
    ensures OnlyLastMarked(Values(data)) <==>
              !HasSuffix(data[..TAG_SIZE], EOF) && OnlyLastMarked(Values(data[TAG_SIZE..]))
  {
    var m := data + EOF;
    var rest := data[TAG_SIZE..];
    assert m[..TAG_SIZE] == data[..TAG_SIZE] && m[TAG_SIZE..] == rest + EOF;
    var vs, ws := Values(data), Values(rest);
    assert ws != [];
    assert forall i :: 0 <= i < |ws| ==> ws[i] == vs[i + 1];
    if OnlyLastMarked(vs) {
      assert vs[0] == data[..TAG_SIZE];
      forall i | 0 <= i < |ws| - 1 ensures !HasSuffix(ws[i], EOF) { assert ws[i] == vs[i + 1]; }
    }
    if !HasSuffix(data[..TAG_SIZE], EOF) && OnlyLastMarked(ws) {
      forall i | 0 <= i < |vs| - 1 ensures !HasSuffix(vs[i], EOF) { assert i > 0 ==> vs[i] == ws[i - 1]; }
    }
  }

  /** Data that ends inside a chunk which still has room for the marker. */
  lemma LastChunk(data: string)
    requires |data| <= TAG_SIZE - |EOF|
    ensures Values(data) == [data + EOF] && HasSuffix(data + EOF, EOF)
  {
    SuffixOfConcat(data, EOF);
  }

  /** Data whose marker is cut in two: the reader never sees it. */
  lemma CutMarker(data: string, k: nat)
    requires TAG_SIZE - |EOF| < |data| < TAG_SIZE && k > 0
    ensures ReadChunks(Values(data), k).Some? && |ReadChunks(Values(data), k).value| >= TAG_SIZE
  {
    var m := data + EOF;
    var v, w := m[..TAG_SIZE], m[TAG_SIZE..];
    assert Pieces(w) == [w] && Values(data) == [v] + Pieces(w);
    assert Values(data)[0] == v && Values(data)[1..] == [w];
    assert v[TAG_SIZE - 1] == EOF[TAG_SIZE - 1 - |data|] && !HasSuffix(v, EOF) && !HasSuffix(w, EOF);
    assert ReadChunks([w], k - 1).Some?;
  }

  ghost predicate ReadsBack(data: string, k: nat) {
    data != "" && ReadChunks(Values(data), k) == Some(DropLast(data))
  }

  /** A full chunk is restorable along with the rest, if it does not end in the marker. */
  lemma RestorableStep(data: string, k: nat)
    requires |data| >= TAG_SIZE && k > 0
    ensures Restorable(data, k) <==> !HasSuffix(data[..TAG_SIZE], EOF) && Restorable(data[TAG_SIZE..], k - 1)
  {
    FullChunk(data);
  }

  lemma FullChunkRead(data: string, k: nat)
    requires |data| >= TAG_SIZE && k > 0
    ensures ReadsBack(data, k) <==> !HasSuffix(data[..TAG_SIZE], EOF) && ReadsBack(data[TAG_SIZE..], k - 1)
  {
    var v, rest := data[..TAG_SIZE], data[TAG_SIZE..];
    FullChunk(data);
    assert Values(data)[0] == v && Values(data)[1..] == Values(rest);
    if rest != "" { assert DropLast(data) == v + DropLast(rest); }
    if ReadChunks(Values(rest), k - 1).Some? {
      var r := ReadChunks(Values(rest), k - 1).value;
      assert (v + r)[TAG_SIZE..] == r;
    }
  }

  lemma {:induction false} ReadChunksExact(data: string, k: nat)
    ensures ReadsBack(data, k) <==> Restorable(data, k)
    decreases |data|
  {
    if |data| >= TAG_SIZE && k > 0 {
      FullChunkRead(data, k);
      RestorableStep(data, k);
      ReadChunksExact(data[TAG_SIZE..], k - 1);
    } else {
      ShortExact(data, k);
    }
  }

  lemma ShortExact(data: string, k: nat)
    requires |data| < TAG_SIZE || k == 0
    ensures ReadsBack(data, k) <==> Restorable(data, k)
  {
    if |data| >= TAG_SIZE {
      assert |DropLast(data)| > 0;
    } else if k > 0 {
      if |data| <= TAG_SIZE - |EOF| {
        LastChunk(data);
        if data != "" { assert (data + EOF)[..|data| - 1] == DropLast(data); }
      } else {
        CutMarker(data, k);
      }
    } else if |data| == 1 {
      LastChunk(data);
    }
  }

  /** A key is read back as its data without the last byte (the newline of the key file)
      if and only if it is `Restorable`. */
  lemma ReadBackExact(data: string)
    ensures data != "" && ReadBack(Values(data)) == Some(DropLast(data)) <==> Restorable(data)
  {
    ReadChunksExact(data, MAX_FOLLOWED);
  }

  /** The marker fills the last chunk alone, that chunk is followed, and no earlier marker
      stops the reader before it: one byte too many is then cut off. */
  predicate Panics(data: string, k: nat := MAX_FOLLOWED) {
    |data| % TAG_SIZE == 0 && |data| < k * TAG_SIZE && OnlyLastMarked(Values(data))
  }

  lemma PanicsStep(data: string, k: nat)
    requires |data| >= TAG_SIZE && k > 0
    ensures Panics(data, k) <==> !HasSuffix(data[..TAG_SIZE], EOF) && Panics(data[TAG_SIZE..], k - 1)
  {
    FullChunk(data);
  }

  lemma PanicStep(data: string, k: nat)
    requires |data| >= TAG_SIZE && k > 0
    ensures ReadChunks(Values(data), k) == None <==>
              !HasSuffix(data[..TAG_SIZE], EOF) && ReadChunks(Values(data[TAG_SIZE..]), k - 1) == None
  {
    FullChunk(data);
    assert Values(data)[0] == data[..TAG_SIZE] && Values(data)[1..] == Values(data[TAG_SIZE..]);
  }

  /** Reading one key panics if and only if its length is a multiple of 255 bytes, the chunk
      of its marker is followed, and no earlier chunk ends in the marker. */
  lemma {:induction false} PanicsExactly(data: string, k: nat)
    ensures ReadChunks(Values(data), k) == None <==> Panics(data, k)
    decreases |data|
  {
    if k > 0 {
      if |data| >= TAG_SIZE {
        PanicStep(data, k);
        PanicsStep(data, k);
        PanicsExactly(data[TAG_SIZE..], k - 1);
      } else {
        ShortPanics(data, k);
      }
    }
  }

  lemma ShortPanics(data: string, k: nat)
    requires |data| < TAG_SIZE && k > 0
    ensures ReadChunks(Values(data), k) == None <==> Panics(data, k)
  {
    if data == "" {
      LastChunk(data);
      assert Panics(data, k);
    } else {
      NoMultiple(|data|);
      if |data| <= TAG_SIZE - |EOF| { LastChunk(data); } else { CutMarker(data, k); }
    }
  }

  lemma NoMultiple(n: nat)
    requires 0 < n < TAG_SIZE
    ensures n % TAG_SIZE != 0
  {
  }

  /* ---------- the order of the tags ---------- */

  /** No name continues another name with a dash, so their tags do not interleave.
      Names without dashes always satisfy this. */
  ghost predicate Separated(names: set<string>) {
    forall m, n :: Apart(names, m, n)
  }

  predicate Apart(names: set<string>, m: string, n: string) {
    m in names && n in names ==> !HasPrefix(n, m + "-")
  }

  lemma DashFreeIsSeparated(names: set<string>)
    requires forall n :: n in names ==> '-' !in n
    ensures Separated(names)
  {
    forall m, n ensures Apart(names, m, n) {
      if HasPrefix(n, m + "-") { DashWithin(m, n); }
    }
  }

  lemma DashWithin(m: string, n: string)
    requires HasPrefix(n, m + "-")
    ensures '-' in n
  {
    assert n[|m|] == '-';
  }

  lemma DashPrefix(m: string, n: string)
    ensures (m + "-") <= (n + "-") ==> m == n || (m + "-") <= n
  {
    if |m| == |n| { assert (m + "-")[..|m|] == m && (n + "-")[..|n|] == n; }
  }

  /** All the tags of one key are on the same side of all the tags of another. */
  lemma TagsDoNotInterleave(names: set<string>, m: string, i: nat, n: string, j: nat)
    requires Separated(names) && m in names && n in names && m != n
    ensures Less(TagName(m, i), TagName(n, j)) == Less(TagName(m, 0), TagName(n, 0))
  {
    var p := TAG_PREFIX + "/";
    var a, b := m + "-", n + "-";
    assert Apart(names, m, n) && Apart(names, n, m);
    DashPrefix(m, n);
    DashPrefix(n, m);
    forall x: nat, y: nat ensures Less(TagName(m, x), TagName(n, y)) == Less(a, b) {
      assert TagName(m, x) == p + (a + Decimal(x)) && TagName(n, y) == p + (b + Decimal(y));
      LessCommonPrefix(p, a + Decimal(x), b + Decimal(y));
      LessPrefixFree(a, b, Decimal(x), Decimal(y));
    }
  }

  /** The chunks of one key are in numeric order up to nine; then comes ten, far too early. */
  lemma ChunkOrder(name: string, c: nat)
    ensures c < 9 ==> Less(TagName(name, c), TagName(name, c + 1))
    ensures Less(TagName(name, 10), TagName(name, 9))
  {
    var p := TAG_PREFIX + "/" + name + "-";
    LessCommonPrefix(p, Decimal(c), Decimal(c + 1));
    LessCommonPrefix(p, Decimal(10), Decimal(9));
    assert Decimal(10) == Decimal(1) + [Digit(0)];
  }

  lemma TagNameParts(name: string, i: nat)
    requires i < MAX_INT64
    ensures HasPrefix(TagName(name, i), "tarmak.io/")
    ensures ParseInt(Tail(TagName(name, i))) == Some(i)
    ensures Stem(TagName(name, i)) + SuccessorText(i) == TagName(name, i + 1)
  {
    DecimalParses(i);
    StemAndTail(TAG_PREFIX + "/" + name, Decimal(i));
    assert TagName(name, i) == "tarmak.io/" + (name + "-" + Decimal(i));
  }

  /** Only chunk 0 of a name that ends in `key` starts a key. */
  lemma StartTags(name: string, i: nat)
    ensures LooksLikeStart(TagName(name, i)) ==> i == 0 && HasSuffix(TAG_PREFIX + "/" + name, "key")
    ensures i == 0 && HasSuffix(name, "key") ==> LooksLikeStart(TagName(name, i))
  {
    if LooksLikeStart(TagName(name, i)) { StartIsChunkZero(name, i); }
    if i == 0 && HasSuffix(name, "key") {
      var stem := TAG_PREFIX + "/" + name[..|name| - 3];
      assert TagName(name, 0) == stem + "key-0" && "tarmak.io/" <= stem;
      SuffixOfConcat(stem, "key-0");
    }
  }

  lemma StartIsChunkZero(name: string, i: nat)
    requires HasSuffix(TagName(name, i), "key-0")
    ensures i == 0 && HasSuffix(TAG_PREFIX + "/" + name, "key")
  {
    var k := TagName(name, i);
    var stem := k[..|k| - 5];
    assert k == stem + "key-0" == (stem + "key") + "-" + Decimal(0);
    NumberedInjective(TAG_PREFIX + "/" + name, i, stem + "key", 0);
    SuffixOfConcat(stem, "key");
  }
}
