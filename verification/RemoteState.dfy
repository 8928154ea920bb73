/** Removing a cluster's terraform state from the shared, versioned state bucket and the
    shared lock table. Nobody else writes to them meanwhile; every call may fail. */
module RemoteState {
  import opened Text

  /** An object version, or a delete marker. Version ids are unique. */
  datatype Version = Version(key: string, id: nat, marker: bool)

  /** A bucket's versions and markers, oldest first. */
  type Versions = seq<Version>

  const PAGE_SIZE := 1000

  /** The newest entry of a key decides what a plain read of the key sees. */
  function Newest(entries: Versions, key: string): Option<Version> {
    if entries == [] then None
    else if entries[|entries| - 1].key == key then Some(entries[|entries| - 1])
    else Newest(entries[..|entries| - 1], key)
  }

  predicate IsLive(entries: Versions, key: string) {
    Newest(entries, key).Some? && !Newest(entries, key).value.marker
  }

  function LiveKeys(entries: Versions): set<string> {
    set e | e in entries && IsLive(entries, e.key) :: e.key
  }

  lemma {:induction false} NewestIsListed(entries: Versions, key: string)
    ensures Newest(entries, key).Some? ==>
              Newest(entries, key).value in entries && Newest(entries, key).value.key == key
  {
    if entries != [] && entries[|entries| - 1].key != key {
      NewestIsListed(entries[..|entries| - 1], key);
    }
  }

  lemma LiveKeysAreLive(entries: Versions, key: string)
    ensures key in LiveKeys(entries) <==> IsLive(entries, key)
  {
    NewestIsListed(entries, key);
  }

  function Ids(vs: Versions): set<nat> {
    set v | v in vs :: v.id
  }

  /** What is left after the versions with these ids are deleted. */
  function Deleted(entries: Versions, ids: set<nat>): Versions {
    if entries == [] then []
    else (if entries[0].id in ids then [] else [entries[0]]) + Deleted(entries[1..], ids)
  }

  lemma {:induction false} DeletedAre(entries: Versions, ids: set<nat>, v: Version)
    ensures v in Deleted(entries, ids) <==> v in entries && v.id !in ids
  {
    if entries != [] {
      DeletedAre(entries[1..], ids, v);
      assert entries == [entries[0]] + entries[1..];
    }
  }

  lemma {:induction false} DeletedShrinks(entries: Versions, ids: set<nat>)
    ensures |Deleted(entries, ids)| <= |entries|
    ensures Ids(entries) * ids != {} ==> |Deleted(entries, ids)| < |entries|
  {
    if entries != [] {
      DeletedShrinks(entries[1..], ids);
      if Ids(entries) * ids != {} && entries[0].id !in ids {
        var i :| i in Ids(entries) * ids;
        var v :| v in entries && v.id == i;
        assert v in entries[1..];
        assert i in Ids(entries[1..]) * ids;
      }
    }
  }

  /* ---------- the stores and the calls on them ---------- */

  class Amazon {
    /** The lock table's items, `None` once the table is deleted. */
    var items: Option<set<string>>

    /** The state bucket, `None` once it is deleted. */
    var bucket: Option<Versions>

    /** Versions that S3 will not delete; `DeleteObjects` then still answers without an error. */
    const refused: set<nat>

    /** How many calls have returned an error so far. */
    ghost var errors: nat

    constructor (items: Option<set<string>>, bucket: Option<Versions>, refused: set<nat>)
      ensures this.items == items && this.bucket == bucket && this.refused == refused && errors == 0
    {
      this.items, this.bucket, this.refused, errors := items, bucket, refused, 0;
    }

    /** The outcome of a call that cannot succeed unless it is `possible`. */
    method Call(possible: bool) returns (ok: bool)
      modifies this`errors
      ensures ok ==> possible
      ensures errors == old(errors) + if ok then 0 else 1
    {
      ok := *;
      ok := ok && possible;
      if !ok { errors := errors + 1; }
    }

    method DeleteItem(item: string) returns (ok: bool)
      modifies this`items, this`errors
      ensures ok ==> old(items).Some? && items == Some(old(items).value - {item})
      ensures !ok ==> items == old(items)
      ensures errors == old(errors) + if ok then 0 else 1
    {
      ok := Call(items.Some?);
      if ok { items := Some(items.value - {item}); }
    }

    /** `countRemoteStateItemsDynamoDB`: one item is assumed when the scan fails. */
    method CountItems() returns (count: nat, ok: bool)
      modifies this`errors
      ensures ok ==> items.Some? && count == |items.value|
      ensures !ok ==> count == 1
      ensures errors == old(errors) + if ok then 0 else 1
    {
      ok := Call(items.Some?);
      count := if ok then |items.value| else 1;
    }

    method DeleteTable() returns (ok: bool)
      modifies this`items, this`errors
      ensures ok ==> items == None
      ensures !ok ==> items == old(items)
      ensures errors == old(errors) + if ok then 0 else 1
    {
      ok := Call(true);
      if ok { items := None; }
    }

    /** Deleting an object of a versioned bucket adds a marker with a new id. */
    method DeleteObject(key: string) returns (ok: bool)
      modifies this`bucket, this`errors
      ensures ok ==>
                && old(bucket).Some?
                && exists id: nat ::
                     && id !in Ids(old(bucket).value) && id !in refused
                     && bucket == Some(old(bucket).value + [Version(key, id, true)])
      ensures !ok ==> bucket == old(bucket)
      ensures errors == old(errors) + if ok then 0 else 1
    {
      ok := Call(bucket.Some?);
      if ok {
        var id := FreshId(Ids(bucket.value) + refused);
        bucket := Some(bucket.value + [Version(key, id, true)]);
      }
    }

    /** `bucketEmpty`: whether a plain listing shows no object. */
    method BucketEmpty() returns (empty: bool, ok: bool)
      modifies this`errors
      ensures ok ==> bucket.Some? && (empty <==> forall key :: !IsLive(bucket.value, key))
      ensures !ok ==> !empty
      ensures errors == old(errors) + if ok then 0 else 1
    {
      ok := Call(bucket.Some?);
      if !ok { return false, false; }
      empty := LiveKeys(bucket.value) == {};
      forall key ensures key in LiveKeys(bucket.value) <==> IsLive(bucket.value, key) {
        LiveKeysAreLive(bucket.value, key);
      }
      if empty { assert forall key :: key !in LiveKeys(bucket.value); }
    }

    /** The first page of a listing of all versions, markers apart. */
    method ListObjectVersions() returns (markers: Versions, versions: Versions, ok: bool)
      modifies this`errors
      ensures ok ==> bucket.Some? && Lists(bucket.value, markers, versions)
      ensures errors == old(errors) + if ok then 0 else 1
    {
      markers, versions := [], [];
      ok := Call(bucket.Some?);
      if !ok { return; }
      markers, versions := FirstPage(bucket.value);
    }

    method DeleteObjects(objects: seq<(string, nat)>) returns (ok: bool)
      modifies this`bucket, this`errors
      ensures ok ==> old(bucket).Some?
      ensures ok ==> bucket == Some(Deleted(old(bucket).value, (set o | o in objects :: o.1) - refused))
      ensures !ok ==> bucket == old(bucket)
      ensures errors == old(errors) + if ok then 0 else 1
    {
      ok := Call(bucket.Some?);
      if ok { bucket := Some(Deleted(bucket.value, (set o | o in objects :: o.1) - refused)); }
    }

    /** `deleteRemoteStateBucket`, watched for `patience` calls; `ended` tells whether it has
        returned by then. It may never do so: see `DeletionEndsExactly`. */
    method DeleteRemoteStateBucket(patience: nat) returns (ok: bool, ended: bool)
      modifies this`bucket, this`errors
      ensures ok ==> ended && bucket == None
      ensures errors == old(errors) + if ended && !ok then 1 else 0
      ensures bucket.Some? ==> old(bucket).Some? && forall v :: v in bucket.value ==> v in old(bucket).value
      ensures old(bucket).None? && patience > 0 ==> ended
      ensures old(bucket).Some? && Ids(old(bucket).value) !! refused && patience > |old(bucket).value| ==> ended
      ensures old(bucket).Some? && !(Ids(old(bucket).value) !! refused) ==> !ok && bucket.Some?
      decreases patience
    {
      ok, ended := false, patience > 0;
      if !ended { return; }
      ok := Call(bucket.Some?);
      if !ok { return false, true; }
      if bucket.value == [] {
        bucket := None;
        return true, true;
      }
      // BucketNotEmpty
      ghost var before := bucket.value;
      var markers, versions, listed := ListObjectVersions();
      if !listed { return false, true; }
      var objects := ObjectsToDelete(markers, versions);
      ok := DeleteObjects(objects);
      if !ok { return false, true; }
      PageNotEmpty(before, markers, versions);
      RoundKeepsOnly(before, (set o | o in objects :: o.1) - refused);
      RefusedStaysOnce(before, set o | o in objects :: o.1, refused);
      if Ids(before) !! refused { RoundShrinks(before, markers + versions, set o | o in objects :: o.1, refused); }
      ok, ended := DeleteRemoteStateBucket(patience - 1);
    }

    /** `Remove`: takes away one cluster's lock item and state object, and the table and the
        bucket when nothing else is in use. */
    method Remove(item: string, key: string, patience: nat) returns (failed: bool, ended: bool)
      modifies this
      // the lock table goes only when it held no item but this one
      ensures items == None ==> old(items).None? || old(items).value <= {item}
      ensures items.Some? ==> old(items).Some? && items.value - {item} == old(items).value - {item}
      // the bucket goes only when no other cluster's state is live, and otherwise keeps it
      ensures bucket == None ==> old(bucket).None? || forall k :: IsLive(old(bucket).value, k) ==> k == key
      ensures bucket.Some? ==>
                && old(bucket).Some?
                && forall k :: k != key && IsLive(old(bucket).value, k) ==>
                     Newest(bucket.value, k) == Newest(old(bucket).value, k)
      // without a failure everything of the cluster is gone, and so are unused stores
      ensures !failed ==>
                && (items.Some? ==> item !in items.value) && (bucket.Some? ==> !IsLive(bucket.value, key))
                && old(items).Some? && (items == None <==> old(items).value <= {item})
                && old(bucket).Some? && (bucket == None <==> forall k :: IsLive(old(bucket).value, k) ==> k == key)
      // it fails exactly when a call does, or the deletion of the bucket is not over
      ensures failed <==> errors > old(errors) || !ended
      // it returns if S3 refuses nothing, after one call more than there are versions and the new marker
      ensures old(bucket).None? && patience > 0 ==> ended
      ensures old(bucket).Some? && Ids(old(bucket).value) !! refused && patience > |old(bucket).value| + 1 ==> ended
    {
      failed := false;
      var ok := DeleteItem(item);
      if !ok { failed := true; }
      var count;
      count, ok := CountItems();
      if !ok { failed := true; }
      if count == 0 {
        ok := DeleteTable();
        if !ok { failed := true; }
      }
      var failed';
      failed', ended := RemoveState(key, patience);
      failed := failed || failed';
    }

    /** The second half of `Remove`. */
    method RemoveState(key: string, patience: nat) returns (failed: bool, ended: bool)
      modifies this`bucket, this`errors
      ensures bucket == None ==> old(bucket).None? || forall k :: IsLive(old(bucket).value, k) ==> k == key
      ensures bucket.Some? ==>
                && old(bucket).Some?
                && forall k :: k != key && IsLive(old(bucket).value, k) ==>
                     Newest(bucket.value, k) == Newest(old(bucket).value, k)
      ensures !failed ==>
                && (bucket.Some? ==> !IsLive(bucket.value, key))
                && old(bucket).Some? && (bucket == None <==> forall k :: IsLive(old(bucket).value, k) ==> k == key)
      ensures errors >= old(errors) && (failed <==> errors > old(errors) || !ended)
      ensures old(bucket).None? && patience > 0 ==> ended
      ensures old(bucket).Some? && Ids(old(bucket).value) !! refused && patience > |old(bucket).value| + 1 ==> ended
    {
      failed, ended := false, true;
      var ok := DeleteObject(key);
      if !ok {
        failed := true;
      } else {
        ghost var m := bucket.value[|bucket.value| - 1];
        assert bucket.value == old(bucket).value + [m];
        MarkerHides(old(bucket).value, m);
      }
      ghost var hidden := bucket;
      var empty;
      empty, ok := BucketEmpty();
      if !ok { failed := true; }
      if ok {
        ghost var was, is_ := old(bucket).value, hidden.value;
        forall k | k != key ensures IsLive(was, k) <==> IsLive(is_, k) { assert Newest(is_, k) == Newest(was, k); }
        assert !failed && !empty ==> exists k :: IsLive(was, k) && k != key;
      }
      if empty {
        assert forall k :: IsLive(old(bucket).value, k) && k != key ==> IsLive(hidden.value, k);
        ok, ended := DeleteRemoteStateBucket(patience);
        if !ok { failed := true; }
      }
    }
  }

  /* ---------- a page of a listing ---------- */

  /** S3 lists keys in byte order, and the versions of a key newest first. */
  predicate ListedBefore(entries: Versions, p: nat, q: nat)
    requires p < |entries| && q < |entries|
  {
    Less(entries[p].key, entries[q].key) || (entries[p].key == entries[q].key && p > q)
  }

  /** The positions of the first entries listed, as many as fit on a page. */
  ghost predicate IsPage(entries: Versions, page: set<nat>) {
    && (forall p :: p in page ==> p < |entries|)
    && |page| == (if |entries| < PAGE_SIZE then |entries| else PAGE_SIZE)
    && (forall p, q: nat :: p in page && q < |entries| && ListedBefore(entries, q, p) ==> q in page)
  }

  ghost predicate InPage(entries: Versions, page: set<nat>, v: Version) {
    exists p :: p in page && p < |entries| && entries[p] == v
  }

  ghost predicate PageSoFar(entries: Versions, page: set<nat>, left: set<nat>) {
    && page + left == Positions(|entries|) && page !! left
    && forall p, q :: p in page && q in left ==> NotBefore(entries, q, p)
  }

  predicate NotBefore(entries: Versions, q: nat, p: nat) {
    q < |entries| && p < |entries| ==> !ListedBefore(entries, q, p)
  }

  predicate IsFirst(entries: Versions, left: set<nat>, p: nat) {
    forall q :: q in left ==> NotBefore(entries, q, p)
  }

  function Positions(n: nat): (ps: set<nat>)
    ensures |ps| == n && forall p: nat :: p in ps <==> p < n
  {
    if n == 0 then {} else Positions(n - 1) + {n - 1}
  }

  lemma PageStep(entries: Versions, page: set<nat>, left: set<nat>, p: nat)
    requires PageSoFar(entries, page, left) && p in left && IsFirst(entries, left, p)
    ensures PageSoFar(entries, page + {p}, left - {p})
  {
    assert page + {p} + (left - {p}) == page + left;
  }

  lemma ListedBeforeTransitive(entries: Versions, p: nat, q: nat, r: nat)
    requires p < |entries| && q < |entries| && r < |entries|
    requires ListedBefore(entries, p, q) && ListedBefore(entries, q, r)
    ensures ListedBefore(entries, p, r)
  {
    if Less(entries[p].key, entries[q].key) && Less(entries[q].key, entries[r].key) {
      LessTransitive(entries[p].key, entries[q].key, entries[r].key);
    }
  }

  /** What is left of a listing has a first entry. */
  lemma {:induction false} FirstListed(entries: Versions, left: set<nat>)
    requires left != {}
    ensures exists p :: p in left && IsFirst(entries, left, p)
    decreases |left|
  {
    var x :| x in left;
    if x < |entries| { LessIrreflexive(entries[x].key); }
    var rest := left - {x};
    assert left == rest + {x};
    if rest == {} {
      assert IsFirst(entries, left, x);
    } else {
      FirstListed(entries, rest);
      var m :| m in rest && IsFirst(entries, rest, m);
      FirstOfTwo(entries, rest, x, m);
    }
  }

  lemma FirstOfTwo(entries: Versions, rest: set<nat>, x: nat, m: nat)
    requires m in rest && IsFirst(entries, rest, m) && NotBefore(entries, x, x)
    ensures IsFirst(entries, rest + {x}, x) || IsFirst(entries, rest + {x}, m)
  {
    if NotBefore(entries, x, m) {
      assert IsFirst(entries, rest + {x}, m);
    } else {
      forall q | q in rest + {x} ensures NotBefore(entries, q, x) {
        if !NotBefore(entries, q, x) {
          ListedBeforeTransitive(entries, q, x, m);
        }
      }
    }
  }

  /** The markers and the versions on the first page. */
  ghost predicate Lists(entries: Versions, markers: Versions, versions: Versions) {
    exists page :: IsPage(entries, page) && Split(entries, page, markers, versions)
  }

  method FirstPage(entries: Versions) returns (markers: Versions, versions: Versions)
    ensures Lists(entries, markers, versions)
  {
    markers, versions := [], [];
    ghost var page: set<nat> := {};
    var left := Positions(|entries|);
    while left != {} && |markers| + |versions| < PAGE_SIZE
      invariant PageSoFar(entries, page, left) && Split(entries, page, markers, versions)
      invariant |markers| + |versions| <= PAGE_SIZE
      decreases left
    {
      FirstListed(entries, left);
      var p :| p in left && IsFirst(entries, left, p);
      PageStep(entries, page, left, p);
      SplitStep(entries, page, markers, versions, p);
      left, page := left - {p}, page + {p};
      if entries[p].marker { markers := markers + [entries[p]]; } else { versions := versions + [entries[p]]; }
    }
    PageComplete(entries, page, left);
  }

  /** The page's entries, markers and versions apart. */
  ghost predicate Split(entries: Versions, page: set<nat>, markers: Versions, versions: Versions) {
    && |page| == |markers| + |versions|
    && forall v :: SplitAt(entries, page, markers, versions, v)
  }

  ghost predicate SplitAt(entries: Versions, page: set<nat>, markers: Versions, versions: Versions, v: Version) {
    && (v in markers <==> InPage(entries, page, v) && v.marker)
    && (v in versions <==> InPage(entries, page, v) && !v.marker)
  }

  lemma SplitStep(entries: Versions, page: set<nat>, markers: Versions, versions: Versions, p: nat)
    requires Split(entries, page, markers, versions) && p < |entries| && p !in page
    ensures if entries[p].marker then Split(entries, page + {p}, markers + [entries[p]], versions)
            else Split(entries, page + {p}, markers, versions + [entries[p]])
  {
    var markers' := if entries[p].marker then markers + [entries[p]] else markers;
    var versions' := if entries[p].marker then versions else versions + [entries[p]];
    var page' := page + {p};
    InPageStep(entries, page, p);
    forall v ensures SplitAt(entries, page', markers', versions', v) {
      assert SplitAt(entries, page, markers, versions, v);
      assert InPage(entries, page', v) <==> InPage(entries, page, v) || v == entries[p];
    }
  }

  lemma InPageStep(entries: Versions, page: set<nat>, p: nat)
    requires p < |entries|
    ensures forall v :: InPage(entries, page + {p}, v) <==> InPage(entries, page, v) || v == entries[p]
  {
    forall v ensures InPage(entries, page + {p}, v) <==> InPage(entries, page, v) || v == entries[p] {
      if InPage(entries, page, v) {
        var q :| q in page && q < |entries| && entries[q] == v;
        assert q in page + {p};
      }
    }
  }

  lemma PageComplete(entries: Versions, page: set<nat>, left: set<nat>)
    requires PageSoFar(entries, page, left) && |page| <= PAGE_SIZE && (left == {} || |page| == PAGE_SIZE)
    ensures IsPage(entries, page)
  {
    assert |page + left| == |page| + |left|;
    assert left != {} ==> |left| > 0;
    forall p, q | p in page && 0 <= q < |entries| && ListedBefore(entries, q, p) ensures q in page {
      assert q in page + left;
      assert q in left ==> NotBefore(entries, q, p);
    }
  }

  lemma PageNotEmpty(entries: Versions, markers: Versions, versions: Versions)
    requires entries != [] && Lists(entries, markers, versions)
    ensures markers + versions != [] && forall v :: v in markers + versions ==> v in entries
  {
    var page :| IsPage(entries, page) && Split(entries, page, markers, versions);
    forall v | v in markers + versions ensures v in entries {
      assert SplitAt(entries, page, markers, versions, v);
    }
  }

  method ObjectsToDelete(markers: Versions, versions: Versions) returns (objects: seq<(string, nat)>)
    ensures |objects| == |markers| + |versions|
    ensures forall n :: 0 <= n < |markers| ==> objects[n] == (markers[n].key, markers[n].id)
    ensures forall n :: 0 <= n < |versions| ==> objects[|markers| + n] == (versions[n].key, versions[n].id)
  {
    objects := [];
    for n := 0 to |markers|
      invariant |objects| == n && forall m :: 0 <= m < n ==> objects[m] == (markers[m].key, markers[m].id)
    {
      objects := objects + [(markers[n].key, markers[n].id)];
    }
    for n := 0 to |versions|
      invariant |objects| == |markers| + n
      invariant forall m :: 0 <= m < |markers| ==> objects[m] == (markers[m].key, markers[m].id)
      invariant forall m :: 0 <= m < n ==> objects[|markers| + m] == (versions[m].key, versions[m].id)
    {
      objects := objects + [(versions[n].key, versions[n].id)];
    }
  }

  function FreshId(used: set<nat>): (id: nat)
    ensures id !in used
  {
    FreshFrom(used, 0)
  }

  function FreshFrom(used: set<nat>, n: nat): (id: nat)
    ensures id !in used
    decreases |set i | i in used && i >= n|
  {
    if n !in used then n
    else
      assert (set i | i in used && i >= n) == (set i | i in used && i >= n + 1) + {n};
      FreshFrom(used, n + 1)
  }

  /* ---------- why it is safe ---------- */

  /** A delete marker hides its key and no other. */
  lemma MarkerHides(entries: Versions, m: Version)
    requires m.marker
    ensures var after := entries + [m];
            !IsLive(after, m.key) && forall k :: k != m.key ==> Newest(after, k) == Newest(entries, k)
  {
    assert (entries + [m])[..|entries|] == entries;
  }

  lemma RefusedStaysOnce(entries: Versions, ids: set<nat>, refused: set<nat>)
    ensures !(Ids(entries) !! refused) ==> !(Ids(Deleted(entries, ids - refused)) !! refused)
  {
    if !(Ids(entries) !! refused) {
      var i :| i in Ids(entries) && i in refused;
      var v :| v in entries && v.id == i;
      DeletedAre(entries, ids - refused, v);
      assert i in Ids(Deleted(entries, ids - refused));
    }
  }

  lemma RoundKeepsOnly(entries: Versions, ids: set<nat>)
    ensures forall v :: v in Deleted(entries, ids) ==> v in entries
  {
    forall v ensures v in Deleted(entries, ids) ==> v in entries { DeletedAre(entries, ids, v); }
  }

  lemma RoundShrinks(entries: Versions, page: Versions, ids: set<nat>, refused: set<nat>)
    requires entries != [] && page != [] && Ids(entries) !! refused
    requires forall v :: v in page ==> v in entries && v.id in ids
    ensures |Deleted(entries, ids - refused)| < |entries| && Ids(Deleted(entries, ids - refused)) !! refused
    ensures forall v :: v in Deleted(entries, ids - refused) ==> v in entries
  {
    assert page[0] in page;
    assert page[0].id in Ids(entries) * (ids - refused);
    DeletedShrinks(entries, ids - refused);
    forall v ensures v in Deleted(entries, ids - refused) ==> v in entries { DeletedAre(entries, ids - refused, v); }
  }

  /* ---------- when it ends ---------- */

  /** The bucket after the rounds of deletion that list these pages. */
  function Rounds(entries: Versions, refused: set<nat>, pages: seq<set<nat>>): Versions {
    if pages == [] then entries
    else Deleted(Rounds(entries, refused, pages[..|pages| - 1]), pages[|pages| - 1] - refused)
  }

  /** Each round lists something that is still there. */
  ghost predicate Listings(entries: Versions, refused: set<nat>, pages: seq<set<nat>>) {
    forall n :: 0 <= n < |pages| ==> pages[n] * Ids(Rounds(entries, refused, pages[..n])) != {}
  }

  lemma {:induction false} RefusedStays(entries: Versions, refused: set<nat>, pages: seq<set<nat>>, v: Version)
    requires v in entries && v.id in refused
    ensures v in Rounds(entries, refused, pages)
  {
    if pages != [] {
      RefusedStays(entries, refused, pages[..|pages| - 1], v);
      DeletedAre(Rounds(entries, refused, pages[..|pages| - 1]), pages[|pages| - 1] - refused, v);
    }
  }

  lemma {:induction false} RoundsShrink(entries: Versions, refused: set<nat>, pages: seq<set<nat>>)
    requires Ids(entries) !! refused && Listings(entries, refused, pages)
    ensures |Rounds(entries, refused, pages)| + |pages| <= |entries| && Ids(Rounds(entries, refused, pages)) !! refused
  {
    if pages != [] {
      var init, last := pages[..|pages| - 1], pages[|pages| - 1];
      assert forall n :: 0 <= n < |init| ==> init[n] == pages[n] && init[..n] == pages[..n];
      RoundsShrink(entries, refused, init);
      var before := Rounds(entries, refused, init);
      assert Ids(before) * (last - refused) != {} by {
        assert last * Ids(before) != {};
        var i :| i in last * Ids(before);
        assert i in Ids(before) * (last - refused);
      }
      DeletedShrinks(before, last - refused);
      forall v ensures v in Deleted(before, last - refused) ==> v in before { DeletedAre(before, last - refused, v); }
    }
  }

  /** The recursion that empties the bucket ends if and only if S3 refuses to delete none of
      its versions: then at most as many rounds as there are versions are possible, and
      otherwise no number of rounds empties it. */
  lemma DeletionEndsExactly(entries: Versions, refused: set<nat>)
    ensures Ids(entries) !! refused ==>
              forall pages :: Listings(entries, refused, pages) ==> |pages| <= |entries|
    ensures !(Ids(entries) !! refused) ==>
              forall pages :: Listings(entries, refused, pages) ==> Rounds(entries, refused, pages) != []
  {
    if Ids(entries) !! refused {
      forall pages | Listings(entries, refused, pages) ensures |pages| <= |entries| {
        RoundsShrink(entries, refused, pages);
      }
    } else {
      var i :| i in Ids(entries) && i in refused;
      var v :| v in entries && v.id == i;
      forall pages | Listings(entries, refused, pages) ensures Rounds(entries, refused, pages) != [] {
        RefusedStays(entries, refused, pages, v);
      }
    }
  }

  /* ---------- what a round brings back to life ---------- */

  /** A version of the key that stays, while every newer entry of the key goes. */
  ghost predicate Uncovered(entries: Versions, ids: set<nat>, key: string, p: nat) {
    && p < |entries| && entries[p].key == key && !entries[p].marker && entries[p].id !in ids
    && forall q :: p < q < |entries| && entries[q].key == key ==> entries[q].id in ids
  }

  lemma {:induction false} DeletedConcat(a: Versions, b: Versions, ids: set<nat>)
    ensures Deleted(a + b, ids) == Deleted(a, ids) + Deleted(b, ids)
  {
    if a == [] {
      assert a + b == b;
    } else {
      assert (a + b)[0] == a[0] && (a + b)[1..] == a[1..] + b;
      DeletedConcat(a[1..], b, ids);
    }
  }

  /** A key is live after a deletion exactly when one of its versions is uncovered. */
  lemma {:induction false} LiveAfterExactly(entries: Versions, ids: set<nat>, key: string)
    ensures IsLive(Deleted(entries, ids), key) <==> exists p :: Uncovered(entries, ids, key, p)
  {
    if entries != [] {
      var n := |entries| - 1;
      var rest, last := entries[..n], entries[n];
      LiveAfterExactly(rest, ids, key);
      assert entries == rest + [last] && [last][1..] == [];
      DeletedConcat(rest, [last], ids);
      if last.id in ids {
        assert Deleted(entries, ids) == Deleted(rest, ids);
      } else {
        assert Deleted(entries, ids) == Deleted(rest, ids) + [last];
        assert Deleted(entries, ids)[..|Deleted(rest, ids)|] == Deleted(rest, ids);
      }
      if last.id in ids || last.key != key {
        forall p ensures Uncovered(entries, ids, key, p) <==> Uncovered(rest, ids, key, p) {
          UncoveredBefore(entries, ids, key, p);
        }
      } else {
        assert !last.marker ==> Uncovered(entries, ids, key, n);
      }
    }
  }

  lemma UncoveredBefore(entries: Versions, ids: set<nat>, key: string, p: nat)
    requires entries != [] && (entries[|entries| - 1].id in ids || entries[|entries| - 1].key != key)
    ensures Uncovered(entries, ids, key, p) <==> Uncovered(entries[..|entries| - 1], ids, key, p)
  {
    var rest := entries[..|entries| - 1];
    assert forall q :: 0 <= q < |rest| ==> rest[q] == entries[q];
    if Uncovered(entries, ids, key, p) {
      assert p < |rest|;
      forall q | p < q < |rest| && rest[q].key == key ensures rest[q].id in ids { assert entries[q] == rest[q]; }
    }
  }

  ghost predicate UniqueIds(entries: Versions) {
    forall p, q :: 0 <= p < q < |entries| ==> entries[p].id != entries[q].id
  }

  function PageIds(entries: Versions, page: set<nat>): set<nat> {
    set p | p in page && p < |entries| :: entries[p].id
  }

  /** The bucket after a round that lists this page. */
  function Round(entries: Versions, page: set<nat>, refused: set<nat>): Versions {
    Deleted(entries, PageIds(entries, page) - refused)
  }

  /** The entry is listed on the page and S3 does not refuse to delete it. */
  predicate Goes(entries: Versions, page: set<nat>, refused: set<nat>, p: nat)
    requires p < |entries|
  {
    p in page && entries[p].id !in refused
  }

  /** A version of the key that is not deleted, while every newer entry of the key is. */
  ghost predicate Bared(entries: Versions, page: set<nat>, refused: set<nat>, key: string, p: nat) {
    && p < |entries| && entries[p].key == key && !entries[p].marker && !Goes(entries, page, refused, p)
    && forall q :: p < q < |entries| && entries[q].key == key ==> Goes(entries, page, refused, q)
  }

  lemma GoesExactly(entries: Versions, page: set<nat>, refused: set<nat>, p: nat)
    requires UniqueIds(entries) && p < |entries|
    ensures Goes(entries, page, refused, p) <==> entries[p].id in PageIds(entries, page) - refused
  {
    if entries[p].id in PageIds(entries, page) {
      var q :| q in page && q < |entries| && entries[q].id == entries[p].id;
      assert p == q;
    }
  }

  /** After one round of the deletion a key is live exactly when the page and the refusals
      bare one of its versions; a key hidden by a marker is thereby revived. */
  lemma RevivedExactly(entries: Versions, page: set<nat>, refused: set<nat>, key: string)
    requires UniqueIds(entries)
    ensures IsLive(Round(entries, page, refused), key) <==> exists p :: Bared(entries, page, refused, key, p)
  {
    var ids := PageIds(entries, page) - refused;
    LiveAfterExactly(entries, ids, key);
    forall p | 0 <= p < |entries| ensures Goes(entries, page, refused, p) <==> entries[p].id in ids {
      GoesExactly(entries, page, refused, p);
    }
    forall p ensures Bared(entries, page, refused, key, p) <==> Uncovered(entries, ids, key, p) {
      BaredIsUncovered(entries, page, refused, key, p);
    }
  }

  lemma BaredIsUncovered(entries: Versions, page: set<nat>, refused: set<nat>, key: string, p: nat)
    requires forall q: nat :: q < |entries| ==>
               (Goes(entries, page, refused, q) <==> entries[q].id in PageIds(entries, page) - refused)
    ensures Bared(entries, page, refused, key, p) <==>
              Uncovered(entries, PageIds(entries, page) - refused, key, p)
  {
    var ids := PageIds(entries, page) - refused;
    if Bared(entries, page, refused, key, p) {
      forall q | p < q < |entries| && entries[q].key == key ensures entries[q].id in ids {
        assert Goes(entries, page, refused, q);
      }
    }
    if Uncovered(entries, ids, key, p) {
      forall q | p < q < |entries| && entries[q].key == key ensures Goes(entries, page, refused, q) {
        assert entries[q].id in ids;
      }
    }
  }

  /** A page that holds the whole bucket, with nothing refused, revives nothing. */
  lemma OnePageRevivesNothing(entries: Versions, page: set<nat>, refused: set<nat>, key: string)
    requires UniqueIds(entries) && IsPage(entries, page) && |entries| <= PAGE_SIZE && Ids(entries) !! refused
    ensures !IsLive(Round(entries, page, refused), key)
  {
    RevivedExactly(entries, page, refused, key);
    assert page <= Positions(|entries|);
    SubsetOfSameSize(page, Positions(|entries|));
    forall p: nat ensures !Bared(entries, page, refused, key, p) {
      if p < |entries| {
        assert p in Positions(|entries|) && entries[p] in entries;
        assert Goes(entries, page, refused, p);
      }
    }
  }

  lemma {:induction false} SubsetOfSameSize(a: set<nat>, b: set<nat>)
    requires a <= b && |a| == |b|
    ensures a == b
  {
    assert |b - a| == |b| - |a|;
    assert b == a + (b - a);
  }

  /** The page of a bucket with one key holds its newest entries. */
  lemma {:induction false} NewestOnPage(entries: Versions, key: string, page: set<nat>)
    requires IsPage(entries, page) && forall p :: 0 <= p < |entries| ==> entries[p].key == key
    ensures forall p: nat :: p < |entries| ==> (p in page <==> p >= |entries| - PAGE_SIZE)
  {
    var n := |entries|;
    forall p, q: nat | p in page && p < q < n ensures q in page {
      assert ListedBefore(entries, q, p);
    }
    TopPositions(n, page);
  }

  lemma {:induction false} TopPositions(n: nat, page: set<nat>)
    requires forall p :: p in page ==> p < n
    requires forall p, q: nat :: p in page && p < q < n ==> q in page
    ensures |page| <= n && forall p: nat :: p < n ==> (p in page <==> p >= n - |page|)
  {
    if page == {} {
    } else {
      var p :| p in page;
      assert n - 1 in page;
      var rest := page - {n - 1};
      assert |rest| == |page| - 1;
      TopPositions(n - 1, rest);
      forall p: nat | p < n ensures p in page <==> p >= n - |page| {
        assert p < n - 1 ==> (p in rest <==> p >= n - 1 - |rest|);
      }
    }
  }

  /** A bucket with one key and more than a page of entries: whatever its newest entry is,
      after the first round the key is live exactly when the newest entry not listed is a
      version. So a state that was deleted comes back, and stays if the next call fails. */
  lemma RoundCanRevive(entries: Versions, key: string, page: set<nat>)
    requires UniqueIds(entries) && IsPage(entries, page) && |entries| > PAGE_SIZE
    requires forall p :: 0 <= p < |entries| ==> entries[p].key == key
    ensures IsLive(Round(entries, page, {}), key) <==> !entries[|entries| - PAGE_SIZE - 1].marker
  {
    RevivedExactly(entries, page, {}, key);
    NewestOnPage(entries, key, page);
    OnlyNextIsBared(entries, key, page, |entries| - PAGE_SIZE - 1);
  }

  lemma OnlyNextIsBared(entries: Versions, key: string, page: set<nat>, next: nat)
    requires next < |entries| && forall p :: 0 <= p < |entries| ==> entries[p].key == key
    requires forall p: nat :: p < |entries| ==> (p in page <==> p > next)
    ensures (exists p :: Bared(entries, page, {}, key, p)) <==> !entries[next].marker
  {
    assert !Goes(entries, page, {}, next);
    if entries[next].marker {
      forall p: nat ensures !Bared(entries, page, {}, key, p) {
        if next < p < |entries| { assert Goes(entries, page, {}, p); }
      }
    } else {
      assert Bared(entries, page, {}, key, next);
    }
  }
}
