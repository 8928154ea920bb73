/** The tagging control function: an instance's host-key tags are written once.
    Requests for one instance are handled one at a time, and EC2 creates the tags of a
    request together or not at all. */
module TagControl {
  import opened Text
  import opened HostKeyTags
  import opened HostKeyRoundTrip

  type TagMap = map<string, string>

  /** A request together with what the calls it leads to will answer. `verified` is the
      outcome of the signature checks. */
  datatype Request = Request(verified: bool, documentParses: bool, publicKeys: PublicKeys, describeOk: bool,
                             createOk: bool)

  datatype Outcome = Ok | Rejected | BadDocument | Mismatch | CallFailed

  predicate IsTarmakTag(key: string) {
    HasPrefix(key, TAG_PREFIX)
  }

  ghost predicate HasTarmakTags(tags: TagMap) {
    exists k :: k in tags && IsTarmakTag(k)
  }

  /* ---------- the tags of a request, as a function ---------- */

  lemma TagNamesInjective()
    ensures forall m, i: nat, n, j: nat :: TagName(m, i) == TagName(n, j) ==> m == n && i == j
  {
    forall m, i: nat, n, j: nat | TagName(m, i) == TagName(n, j) ensures m == n && i == j {
      TagNameInjective(m, i, n, j);
    }
  }

  lemma WrittenExists(chunks: Chunked)
    ensures exists tags :: Written(chunks, tags)
  {
    TagNamesInjective();
    var tags := map n, i: nat | n in chunks && 0 <= i < |chunks[n]| :: TagName(n, i) := chunks[n][i];
    assert forall n, i: nat :: Present(chunks, tags, n, i);
    forall k ensures Explained(chunks, tags, k) {
      if k in tags {
        var n, i: nat :| n in chunks && 0 <= i < |chunks[n]| && k == TagName(n, i);
        assert IsChunk(chunks, Tag(k, tags[k]), n, i);
      }
    }
    assert Written(chunks, tags);
  }

  /** The one map that `Written` allows. */
  ghost function TagsOf(chunks: Chunked): (tags: TagMap)
    ensures Written(chunks, tags)
  {
    WrittenExists(chunks);
    var tags :| Written(chunks, tags);
    tags
  }

  ghost function Wanted(keys: PublicKeys): TagMap {
    TagsOf(ChunkedOf(keys))
  }

  lemma WrittenTagsArePrefixed(chunks: Chunked, tags: TagMap)
    requires Written(chunks, tags)
    ensures forall k :: k in tags ==> IsTarmakTag(k)
  {
    forall k | k in tags ensures IsTarmakTag(k) {
      assert Explained(chunks, tags, k);
      var n, i: nat :| IsChunk(chunks, Tag(k, tags[k]), n, i);
      assert k == TAG_PREFIX + ("/" + n + "-" + Decimal(i));
    }
  }

  /** Every key fills at least one tag, if only with the marker. */
  lemma SomeTags(keys: PublicKeys)
    requires keys != map[]
    ensures HasTarmakTags(Wanted(keys))
  {
    var n :| n in keys;
    assert Present(ChunkedOf(keys), Wanted(keys), n, 0);
    WrittenTagsArePrefixed(ChunkedOf(keys), Wanted(keys));
    assert TagName(n, 0) in Wanted(keys);
  }

  /* ---------- handling a request ---------- */

  /** Some tarmak tag on the instance is not among the wanted ones. */
  ghost predicate Conflicts(tags: TagMap, wanted: TagMap) {
    exists k :: k in tags && IsTarmakTag(k) && !HasTag(wanted, Tag(k, tags[k]))
  }

  ghost function Handle(tags: TagMap, r: Request): (TagMap, Outcome) {
    HandleWith(tags, r, Wanted(r.publicKeys))
  }

  ghost function HandleWith(tags: TagMap, r: Request, wanted: TagMap): (TagMap, Outcome) {
    if !r.verified then (tags, Rejected)
    else if !r.documentParses then (tags, BadDocument)
    else if !r.describeOk then (tags, CallFailed)
    else if Conflicts(tags, wanted) then (tags, Mismatch)
    else if HasTarmakTags(tags) then (tags, Ok)
    else if !r.createOk then (tags, CallFailed)
    else (tags + wanted, Ok)
  }

  class Instance {
    var tags: TagMap

    constructor (tags: TagMap)
      ensures this.tags == tags
    {
      this.tags := tags;
    }

    /** `checkTagsAgainstInstance`, visiting the instance's tags in an arbitrary order. */
    method CheckTagsAgainstInstance(wanted: TagMap) returns (tagsExist: bool, ok: bool)
      ensures ok <==> !Conflicts(tags, wanted)
      ensures ok ==> (tagsExist <==> HasTarmakTags(tags))
    {
      tagsExist, ok := false, true;
      var left := tags.Keys;
      while left != {}
        invariant left <= tags.Keys && ok
        invariant forall k :: k in tags && k !in left && IsTarmakTag(k) ==> tagsExist && HasTag(wanted, Tag(k, tags[k]))
        invariant tagsExist ==> HasTarmakTags(tags)
        decreases |left|
      {
        var k :| k in left;
        left := left - {k};
        if HasPrefix(k, TAG_PREFIX) {
          tagsExist := true;
          if k !in wanted || tags[k] != wanted[k] {
            return true, false;
          }
        }
      }
    }

    /** `HandleRequests`. */
    method HandleRequests(r: Request) returns (outcome: Outcome)
      modifies this
      ensures (tags, outcome) == Handle(old(tags), r)
    {
      if !r.verified { return Rejected; }
      if !r.documentParses { return BadDocument; }
      var wanted := CreateTags(r.publicKeys);
      WrittenUnique(ChunkedOf(r.publicKeys), wanted, Wanted(r.publicKeys));
      if !r.describeOk { return CallFailed; }
      var exists_, ok := CheckTagsAgainstInstance(wanted);
      if !ok { return Mismatch; }
      if exists_ { return Ok; }
      if !r.createOk { return CallFailed; }
      tags := tags + wanted;
      outcome := Ok;
    }
  }

  /* ---------- whole runs ---------- */

  ghost function HandleAll(tags: TagMap, requests: seq<Request>): TagMap
    decreases |requests|
  {
    if requests == [] then tags else HandleAll(Handle(tags, requests[0]).0, requests[1..])
  }

  /** Once an instance carries tarmak tags, no sequence of requests changes any tag of it. */
  lemma {:induction false} WrittenOnce(tags: TagMap, requests: seq<Request>)
    requires HasTarmakTags(tags)
    ensures HandleAll(tags, requests) == tags
    decreases |requests|
  {
    if requests != [] { WrittenOnce(tags, requests[1..]); }
  }

  /** Repeating an accepted request, whatever happened in between, succeeds without writing. */
  lemma AcceptedRequestRepeats(tags: TagMap, r: Request, between: seq<Request>)
    requires Handle(tags, r).1 == Ok && r.publicKeys != map[]
    ensures var after := HandleAll(Handle(tags, r).0, between);
            after == Handle(tags, r).0 && Handle(after, r) == (after, Ok)
  {
    var after := Handle(tags, r).0;
    var wanted := Wanted(r.publicKeys);
    SomeTags(r.publicKeys);
    if !HasTarmakTags(tags) {
      var k :| k in wanted && IsTarmakTag(k);
      assert k in after;
    }
    WrittenOnce(after, between);
  }

  /** Requests never touch tags outside the tarmak prefix. */
  lemma {:induction false} OtherTagsKept(tags: TagMap, requests: seq<Request>, k: string)
    requires !IsTarmakTag(k)
    ensures k in tags <==> k in HandleAll(tags, requests)
    ensures k in tags ==> HandleAll(tags, requests)[k] == tags[k]
    decreases |requests|
  {
    if requests != [] {
      OtherTagKept(tags, requests[0], k);
      OtherTagsKept(Handle(tags, requests[0]).0, requests[1..], k);
    }
  }

  lemma OtherTagKept(tags: TagMap, r: Request, k: string)
    requires !IsTarmakTag(k)
    ensures k in tags <==> k in Handle(tags, r).0
    ensures k in tags ==> Handle(tags, r).0[k] == tags[k]
  {
    WrittenTagsArePrefixed(ChunkedOf(r.publicKeys), Wanted(r.publicKeys));
  }

  /** The request writes if the instance has no tarmak tags yet. */
  predicate Writes(r: Request) {
    r.verified && r.documentParses && r.describeOk && r.createOk && r.publicKeys != map[]
  }

  function FirstWriter(requests: seq<Request>): (i: nat)
    ensures i <= |requests| && (i < |requests| ==> Writes(requests[i]))
    ensures forall j :: 0 <= j < i ==> !Writes(requests[j])
  {
    if requests == [] || Writes(requests[0]) then 0 else 1 + FirstWriter(requests[1..])
  }

  /** On a fresh instance the first request that can write wins, for good. */
  lemma {:induction false} FirstWriterWins(tags: TagMap, requests: seq<Request>)
    requires !HasTarmakTags(tags)
    ensures var i := FirstWriter(requests);
            HandleAll(tags, requests) == if i == |requests| then tags else tags + Wanted(requests[i].publicKeys)
    decreases |requests|
  {
    if requests != [] {
      HandleFresh(tags, requests[0]);
      if Writes(requests[0]) {
        WrittenOnce(tags + Wanted(requests[0].publicKeys), requests[1..]);
      } else {
        FirstWriterWins(tags, requests[1..]);
      }
    }
  }

  lemma HandleFresh(tags: TagMap, r: Request)
    requires !HasTarmakTags(tags)
    ensures Writes(r) ==> Handle(tags, r).0 == tags + Wanted(r.publicKeys) && HasTarmakTags(tags + Wanted(r.publicKeys))
    ensures !Writes(r) ==> Handle(tags, r).0 == tags
  {
    var wanted := Wanted(r.publicKeys);
    if r.publicKeys == map[] {
      NothingWanted();
    } else {
      SomeTags(r.publicKeys);
      var k :| k in wanted && IsTarmakTag(k);
      assert k in tags + wanted;
    }
  }

  lemma NothingWanted()
    ensures Wanted(map[]) == map[]
  {
    var chunks := ChunkedOf(map[]);
    forall k ensures k !in Wanted(map[]) { assert Explained(chunks, Wanted(map[]), k); }
  }

  /* ---------- what a request is answered ---------- */

  /** The tags with the tarmak prefix are all among `wanted`. */
  ghost predicate Includes(wanted: TagMap, tags: TagMap) {
    forall k :: k in tags && HasPrefix(k, TAG_PREFIX) ==> k in wanted && wanted[k] == tags[k]
  }

  /** A verified request is a mismatch if and only if some prefixed tag of the instance is
      absent from the tags of its keys or differs there; only an accepted one writes. */
  lemma AnsweredExactly(tags: TagMap, r: Request)
    ensures var (tags', outcome) := Handle(tags, r);
            var included := Includes(Wanted(r.publicKeys), tags);
            && (outcome == Rejected <==> !r.verified)
            && (outcome == BadDocument <==> r.verified && !r.documentParses)
            && (r.verified && r.documentParses ==>
                  && (outcome == Mismatch <==> r.describeOk && !included)
                  && (outcome == Ok <==> r.describeOk && included && (HasTarmakTags(tags) || r.createOk)))
            && (outcome != Ok || HasTarmakTags(tags) ==> tags' == tags)
  {
    var wanted := Wanted(r.publicKeys);
    if Conflicts(tags, wanted) {
      var k :| k in tags && IsTarmakTag(k) && !HasTag(wanted, Tag(k, tags[k]));
      assert HasPrefix(k, TAG_PREFIX);
    }
  }

  lemma {:induction false} PiecesStartExactly(x: string, y: string)
    requires x != ""
    ensures Pieces(x) <= Pieces(y) <==> x == y || (x <= y && |x| % TAG_SIZE == 0)
    decreases |x|
  {
    if |x| <= TAG_SIZE {
      assert |x| % TAG_SIZE == 0 <==> |x| == TAG_SIZE;
      assert [x] <= Pieces(y) <==> Pieces(y) != [] && Pieces(y)[0] == x;
      if |y| > TAG_SIZE { assert x <= y && |x| == TAG_SIZE <==> x == y[..TAG_SIZE]; }
    } else if |y| <= TAG_SIZE {
      assert |Pieces(x)| > 1 >= |Pieces(y)|;
    } else {
      var a, b := x[TAG_SIZE..], y[TAG_SIZE..];
      PiecesStartExactly(a, b);
      assert x == x[..TAG_SIZE] + a && y == y[..TAG_SIZE] + b;
      assert Pieces(x)[0] == x[..TAG_SIZE] && Pieces(x)[1..] == Pieces(a);
      assert Pieces(y)[0] == y[..TAG_SIZE] && Pieces(y)[1..] == Pieces(b);
      PrefixInParts(Pieces(x), Pieces(y));
      assert x <= y <==> x[..TAG_SIZE] == y[..TAG_SIZE] && a <= b;
    }
  }

  lemma PrefixInParts<T>(a: seq<T>, b: seq<T>)
    requires a != [] && b != []
    ensures a <= b <==> a[0] == b[0] && a[1..] <= b[1..]
  {
    if a[0] == b[0] && a[1..] <= b[1..] {
      assert forall i :: 0 < i < |a| ==> a[i] == a[1..][i - 1] && b[i] == b[1..][i - 1];
    }
  }

  /** `b` is the key `a`, or continues it and its marker where these end with a whole chunk. */
  predicate SameOrContinued(a: string, b: string) {
    b == a || ((|a| + |EOF|) % TAG_SIZE == 0 && a + EOF <= b + EOF)
  }

  lemma ValuesStartExactly(a: string, b: string)
    ensures Values(a) <= Values(b) <==> SameOrContinued(a, b)
  {
    PiecesStartExactly(a + EOF, b + EOF);
    if a + EOF == b + EOF { assert (a + EOF)[..|a|] == a && (b + EOF)[..|b|] == b; }
  }

  /** Each key of `first` is there under its name. */
  ghost predicate Continues(keys: PublicKeys, first: PublicKeys) {
    forall n :: n in first ==> n in keys && SameOrContinued(first[n], keys[n])
  }

  lemma IncludesExactly(keys: PublicKeys, first: PublicKeys)
    ensures Includes(Wanted(keys), Wanted(first)) <==> Continues(keys, first)
  {
    var chunks, chunks' := ChunkedOf(first), ChunkedOf(keys);
    var wanted, wanted' := Wanted(first), Wanted(keys);
    WrittenTagsArePrefixed(chunks, wanted);
    if Includes(wanted', wanted) {
      forall n | n in first ensures n in keys && SameOrContinued(first[n], keys[n]) {
        IncludedChunks(keys, first, n);
        ValuesStartExactly(first[n], keys[n]);
      }
    } else {
      var k :| k in wanted && !HasTag(wanted', Tag(k, wanted[k]));
      assert Explained(chunks, wanted, k);
      var n, i: nat :| IsChunk(chunks, Tag(k, wanted[k]), n, i);
      assert Present(chunks', wanted', n, i);
      if n in keys { ValuesStartExactly(first[n], keys[n]); }
    }
  }

  lemma IncludedChunks(keys: PublicKeys, first: PublicKeys, n: string)
    requires n in first && Includes(Wanted(keys), Wanted(first))
    ensures n in keys && Values(first[n]) <= Values(keys[n])
  {
    var a := Values(first[n]);
    IncludedChunk(keys, first, n, 0);
    IncludedChunk(keys, first, n, |a| - 1);
    forall i: nat | i < |a| ensures i < |Values(keys[n])| && Values(keys[n])[i] == a[i] {
      IncludedChunk(keys, first, n, i);
    }
  }

  lemma IncludedChunk(keys: PublicKeys, first: PublicKeys, n: string, i: nat)
    requires n in first && i < |Values(first[n])| && Includes(Wanted(keys), Wanted(first))
    ensures n in keys && i < |Values(keys[n])| && Values(keys[n])[i] == Values(first[n])[i]
  {
    var chunks, chunks' := ChunkedOf(first), ChunkedOf(keys);
    var k := TagName(n, i);
    assert Present(chunks, Wanted(first), n, i);
    WrittenTagsArePrefixed(chunks, Wanted(first));
    assert IsTarmakTag(k);
    assert Explained(chunks', Wanted(keys), k);
    var n', i': nat :| IsChunk(chunks', Tag(k, Wanted(keys)[k]), n', i');
    TagNameInjective(n, i, n', i');
  }

  /** Once the first writer has written, a verified request changes nothing and is accepted if
      and only if it repeats each key of the first writer, or continues one that fills its last
      chunk; otherwise it is a mismatch. */
  lemma {:induction false} LaterRequestExactly(tags: TagMap, requests: seq<Request>, r: Request)
    requires !HasTarmakTags(tags) && FirstWriter(requests) < |requests|
    requires r.verified && r.documentParses && r.describeOk
    ensures var stored := HandleAll(tags, requests);
            var continues := Continues(r.publicKeys, requests[FirstWriter(requests)].publicKeys);
            Handle(stored, r) == (stored, if continues then Ok else Mismatch)
  {
    var first := requests[FirstWriter(requests)].publicKeys;
    var stored := HandleAll(tags, requests);
    FirstWriterWins(tags, requests);
    assert stored == tags + Wanted(first);
    SomeTags(first);
    var k :| k in Wanted(first) && IsTarmakTag(k);
    assert k in stored;
    AnsweredExactly(stored, r);
    IncludesExactly(r.publicKeys, first);
    FreshIncludes(tags, Wanted(first), Wanted(r.publicKeys));
  }

  lemma FreshIncludes(tags: TagMap, stored: TagMap, wanted: TagMap)
    requires !HasTarmakTags(tags)
    ensures Includes(wanted, tags + stored) <==> Includes(wanted, stored)
  {
    forall k | k in tags ensures !HasPrefix(k, TAG_PREFIX) { assert !IsTarmakTag(k); }
    if Includes(wanted, tags + stored) {
      forall k | k in stored && HasPrefix(k, TAG_PREFIX) ensures k in wanted && wanted[k] == stored[k] {
        assert k in tags + stored && (tags + stored)[k] == stored[k];
      }
    }
  }

  /* ---------- from the first request to the host keys ---------- */

  /** A listing of the instance's tags, in any order. */
  ghost predicate Lists(listing: seq<Tag>, tags: TagMap) {
    UniqueKeys(listing) && forall t: Tag :: t in listing <==> HasTag(tags, t)
  }

  lemma FreshCarries(tags: TagMap, keys: PublicKeys, listing: seq<Tag>)
    requires !HasTarmakTags(tags) && Lists(listing, tags + Wanted(keys))
    ensures Carries(ChunkedOf(keys), listing)
  {
    var chunks, wanted := ChunkedOf(keys), Wanted(keys);
    forall n, i: nat ensures Stored(chunks, listing, n, i) {
      assert Present(chunks, wanted, n, i);
      if n in chunks && i < |chunks[n]| { assert HasTag(tags + wanted, Tag(TagName(n, i), chunks[n][i])); }
    }
    forall t ensures Accounted(chunks, listing, t) {
      if t in listing {
        assert HasTag(tags + wanted, t) && Explained(chunks, wanted, t.key);
        if t.key !in wanted { NotTarmakIsUnrelated(chunks, t.key); }
      }
    }
  }

  lemma NotTarmakIsUnrelated(chunks: Chunked, key: string)
    requires !IsTarmakTag(key)
    ensures Unrelated(chunks, key)
  {
    assert TAG_PREFIX <= "tarmak.io/";
    forall n, i: nat | n in chunks ensures key != TagName(n, i) {
      assert TagName(n, i) == TAG_PREFIX + ("/" + n + "-" + Decimal(i));
    }
  }

  /** From end to end: whatever sequence of requests a fresh instance received, and in
      whatever order EC2 lists its tags, the host keys rebuilt from them are those of the
      first request that could write whose names end in `key`, each without its last byte,
      if and only if all of these are restorable from the chunks before the next key; and it
      panics if and only if one of these does alone. */
  lemma {:induction false} HostKeysOfFirstWriter(tags: TagMap, requests: seq<Request>, listing: seq<Tag>,
                                                sorted: seq<Tag>, names: seq<string>)
    requires !HasTarmakTags(tags) && FirstWriter(requests) < |requests|
    requires Lists(listing, HandleAll(tags, requests))
    requires multiset(sorted) == multiset(listing) && SortedBy(sorted, KeyOf)
    requires InTagOrder(ChunkedOf(KeyFiles(requests[FirstWriter(requests)].publicKeys)), names)
    ensures var keys := KeyFiles(requests[FirstWriter(requests)].publicKeys);
            && (forall j :: 0 <= j < |names| ==> names[j] in keys)
            && (AllRestored(keys, names, Reassemble(sorted)) <==> AllRestorable(keys, names))
            && (Reassemble(sorted) == None <==> SomePanics(keys, names))
  {
    var keys := requests[FirstWriter(requests)].publicKeys;
    FirstWriterWins(tags, requests);
    FreshCarries(tags, keys, listing);
    RoundTrip(keys, names, listing, sorted);
    ReaderPanicsExactly(keys, names, listing, sorted);
  }
}
