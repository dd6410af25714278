/** Paged listings of a store that may change between pages, and the walk that follows
    their cursors to the end. */
module Listing {
  import opened Basics
  import opened Text

  const CURSOR_PREFIX := "ntmem1:"
  const PAGE_CEILING: nat := 1000

  datatype StorageError = BucketNotFound | BackendUnavailable(message: string)

  /** What one knowledge base's storage answers with at one moment: its objects, as key
      to `ETag`, or an error. */
  datatype Snapshot = Up(objects: map<string, string>) | Down(error: StorageError)

  datatype Listed = Listed(key: string, etag: Option<string>)
  datatype ListResponse = ListResponse(objects: seq<Listed>, truncated: bool, nextCursor: Option<string>)

  predicate Matches(key: string, prefix: Option<string>) {
    prefix.None? || prefix.value <= key
  }

  /** The key a cursor resumes after. */
  function ResumeKey(cursor: Option<string>): Option<string> {
    if cursor.Some? && CURSOR_PREFIX <= cursor.value then Some(cursor.value[|CURSOR_PREFIX|..]) else None
  }

  predicate Beyond(key: string, after: Option<string>) {
    after.None? || Less(after.value, key)
  }

  ghost predicate KeySorted(entries: seq<Listed>) {
    SortedBy(entries, (e: Listed) => e.key)
  }

  ghost predicate HasKey(entries: seq<Listed>, key: string) {
    exists e :: e in entries && e.key == key
  }

  /** A correct page of the keys beyond `after`: sorted, made of matching objects with
      their `ETag`s, and leaving out only keys greater than every key on it. */
  ghost predicate IsPage(page: seq<Listed>, objects: map<string, string>,
                         prefix: Option<string>, after: Option<string>)
  {
    && KeySorted(page)
    && (forall e :: e in page ==>
          e.key in objects && e.etag == Some(objects[e.key]) && Matches(e.key, prefix) && Beyond(e.key, after))
    && (forall k, e :: k in objects && Matches(k, prefix) && Beyond(k, after) && !HasKey(page, k) && e in page
          ==> Less(e.key, k))
  }

  ghost predicate IsWhole(page: seq<Listed>, objects: map<string, string>,
                          prefix: Option<string>, after: Option<string>)
  {
    forall k :: k in objects && Matches(k, prefix) && Beyond(k, after) ==> HasKey(page, k)
  }

  /** `list_objects` of the in-memory store. */
  method ListObjects(objects: map<string, string>, prefix: Option<string>, limit: nat, cursor: Option<string>)
    returns (r: Result<ListResponse, StorageError>)
    ensures r.Success? <==> cursor.None? || CURSOR_PREFIX <= cursor.value
    ensures r.Failure? ==> r.error == BackendUnavailable("invalid or expired cursor")
    ensures r.Success? ==>
              && IsPage(r.value.objects, objects, prefix, ResumeKey(cursor))
              && |r.value.objects| <= limit && |r.value.objects| <= 1000
              && (r.value.truncated ==> |r.value.objects| == if limit < 1000 then limit else 1000)
              && r.value.truncated == r.value.nextCursor.Some?
              && (r.value.truncated ==>
                    && r.value.objects != []
                    && r.value.nextCursor == Some(CURSOR_PREFIX + r.value.objects[|r.value.objects| - 1].key))
              && (limit >= 1 ==> (r.value.truncated <==> !IsWhole(r.value.objects, objects, prefix, ResumeKey(cursor))))
              && (limit == 0 ==> r.value == ListResponse([], false, None))
  {
    if cursor.Some? && !(CURSOR_PREFIX <= cursor.value) {
      return Failure(BackendUnavailable("invalid or expired cursor"));
    }
    var matching := MatchingKeys(objects, prefix, ResumeKey(cursor));
    var taken := Cut(matching, limit);
    var page := Map(taken, (k: string) => Listed(k, if k in objects then Some(objects[k]) else None));
    PageFacts(page, matching, taken, objects, prefix, ResumeKey(cursor));
    var nextCursor := if |taken| < |matching| && page != [] then Some(CURSOR_PREFIX + page[|page| - 1].key) else None;
    r := Success(ListResponse(page, nextCursor.Some?, nextCursor));
  }

  /** A page's worth of keys. */
  function Cut(keys: seq<string>, limit: nat): (taken: seq<string>)
    ensures taken <= keys && |taken| <= limit && |taken| <= 1000
    ensures taken != keys ==> |taken| < |keys| && |taken| == if limit < 1000 then limit else 1000
  {
    var bound := if limit < PAGE_CEILING then limit else PAGE_CEILING;
    if |keys| > bound then keys[..bound] else keys
  }

  /** The keys under a prefix, sorted, of which only those beyond the cursor are kept. */
  method MatchingKeys(objects: map<string, string>, prefix: Option<string>, after: Option<string>)
    returns (keys: seq<string>)
    ensures Sorted(keys)
    ensures forall k :: k in keys <==> k in objects && Matches(k, prefix) && Beyond(k, after)
  {
    var all := SortKeys(set k | k in objects && Matches(k, prefix));
    keys := Filter(all, (k: string) => Beyond(k, after));
    FilterKeeps(all, (k: string) => Beyond(k, after), (k: string) => k);
    assert SortedBy(all, (k: string) => k);
  }

  /** The page lists these keys, with their `ETag`s. */
  ghost predicate Shows(page: seq<Listed>, taken: seq<string>, objects: map<string, string>) {
    && |page| == |taken|
    && forall i :: 0 <= i < |page| ==>
         page[i] == Listed(taken[i], if taken[i] in objects then Some(objects[taken[i]]) else None)
  }

  lemma ShowsKey(page: seq<Listed>, taken: seq<string>, objects: map<string, string>, key: string)
    requires Shows(page, taken, objects)
    ensures HasKey(page, key) <==> key in taken
  {
    if key in taken {
      var i :| 0 <= i < |taken| && taken[i] == key;
      assert page[i] in page;
    }
  }

  lemma ShownIsTaken(page: seq<Listed>, taken: seq<string>, objects: map<string, string>, e: Listed)
    requires Shows(page, taken, objects) && e in page
    ensures e.key in taken && e.etag == if e.key in objects then Some(objects[e.key]) else None
  {
    var i :| 0 <= i < |page| && page[i] == e;
    assert taken[i] in taken;
  }

  /** A cut of a sorted list leaves out only greater keys. */
  lemma CutBelow(every: seq<string>, taken: seq<string>, low: string, high: string)
    requires Sorted(every) && taken <= every && low in taken && high in every && high !in taken
    ensures Less(low, high)
  {
    var i :| 0 <= i < |taken| && taken[i] == low;
    var j :| 0 <= j < |every| && every[j] == high;
    assert every[i] == low;
    assert forall m :: 0 <= m < |taken| ==> every[m] == taken[m] && taken[m] in taken;
  }

  lemma CutLeavesOut(every: seq<string>, taken: seq<string>)
    requires Sorted(every) && taken <= every && taken != every
    ensures every[|taken|] !in taken
  {
    var key := every[|taken|];
    if key in taken {
      var i :| 0 <= i < |taken| && taken[i] == key;
      assert every[i] == key;
      LessIrreflexive(key);
    }
  }

  lemma PageFacts(page: seq<Listed>, every: seq<string>, taken: seq<string>,
                  objects: map<string, string>, prefix: Option<string>, after: Option<string>)
    requires Sorted(every)
    requires forall k :: k in every <==> k in objects && Matches(k, prefix) && Beyond(k, after)
    requires taken <= every && Shows(page, taken, objects)
    ensures IsPage(page, objects, prefix, after)
    ensures IsWhole(page, objects, prefix, after) <==> taken == every
  {
    assert forall k :: k in taken ==> k in every;
    forall k ensures HasKey(page, k) <==> k in taken {
      ShowsKey(page, taken, objects, k);
    }
    forall e | e in page ensures e.key in taken && e.etag == if e.key in objects then Some(objects[e.key]) else None {
      ShownIsTaken(page, taken, objects, e);
    }
    forall k, e | k in every && k !in taken && e in page ensures Less(e.key, k) {
      CutBelow(every, taken, e.key, k);
    }
    if taken != every {
      CutLeavesOut(every, taken);
      assert every[|taken|] in every;
    }
  }

  // ---------------------------------------------------------------- the walk

  datatype Advance = Done | Next(cursor: string)

  /** What follows a page: nothing, or the page at the cursor it names. A truncated page
      without a cursor, or with the cursor that asked for it, is an error. */
  function AdvanceFrom(truncated: bool, nextCursor: Option<string>, sent: Option<string>)
    : Result<Advance, StorageError>
  {
    if !truncated then Success(Done)
    else if nextCursor.None? then
      Failure(BackendUnavailable("listing reported more pages but supplied no cursor"))
    else if nextCursor == sent then
      Failure(BackendUnavailable("listing repeated the cursor it was given"))
    else Success(Next(nextCursor.value))
  }

  /** Whatever a backend answers, the walk ends exactly on a page that announces no more,
      goes on exactly with a cursor it did not just send, and otherwise is an error: a
      listing can neither end it early unnoticed nor make it spin. */
  lemma AdvanceIff(truncated: bool, nextCursor: Option<string>, sent: Option<string>)
    ensures var r := AdvanceFrom(truncated, nextCursor, sent);
            && (r == Success(Done) <==> !truncated)
            && (forall c :: r == Success(Next(c)) <==> truncated && nextCursor == Some(c) && sent != Some(c))
            && (r.Failure? <==> truncated && (nextCursor.None? || nextCursor == sent))
            && (r.Failure? ==>
                  r.error == BackendUnavailable(if nextCursor.None?
                                                then "listing reported more pages but supplied no cursor"
                                                else "listing repeated the cursor it was given"))
  {
  }

  /** How a walk stands after `pages` listings. */
  datatype Walk =
    | Complete(entries: seq<Listed>, pages: nat)
    | Failed(error: StorageError)
    | Unfinished(entries: seq<Listed>)

  /** A key that storage held at every one of the first `n` moments. */
  ghost predicate Throughout(snapshots: seq<Snapshot>, n: nat, key: string)
    requires n <= |snapshots|
  {
    forall i :: 0 <= i < n ==> snapshots[i].Up? && key in snapshots[i].objects
  }

  /** Every matching key that was there throughout. */
  ghost predicate HoldsAll(out: seq<Listed>, snapshots: seq<Snapshot>, n: nat, prefix: Option<string>)
    requires n <= |snapshots|
  {
    forall k :: Matches(k, prefix) && Throughout(snapshots, n, k) ==> HasKey(out, k)
  }

  /** The first listing that fails fails with this error. */
  ghost predicate FirstDown(snapshots: seq<Snapshot>, error: StorageError) {
    exists i :: 0 <= i < |snapshots| && snapshots[i] == Down(error) && forall j :: 0 <= j < i ==> snapshots[j].Up?
  }

  /** All keys ever held are drawn from `universe`. */
  ghost predicate Within(snapshots: seq<Snapshot>, universe: set<string>) {
    forall i, k :: 0 <= i < |snapshots| && snapshots[i].Up? && k in snapshots[i].objects ==> k in universe
  }

  /** An entry some listing really reported. */
  ghost predicate Witnessed(snapshots: seq<Snapshot>, n: nat, e: Listed)
    requires n <= |snapshots|
  {
    exists i :: 0 <= i < n && snapshots[i].Up? && e.key in snapshots[i].objects
                && e.etag == Some(snapshots[i].objects[e.key])
  }

  /** The most keys one page holds. */
  function PageSize(page: nat): nat {
    if page < 1000 then page else 1000
  }

  /** What the walk has after `n` pages, its last key being `last`. */
  ghost predicate Walked(out: seq<Listed>, snapshots: seq<Snapshot>, n: nat,
                         prefix: Option<string>, last: Option<string>)
    requires n <= |snapshots|
  {
    && KeySorted(out)
    && (forall e :: e in out ==> Matches(e.key, prefix) && Witnessed(snapshots, n, e))
    && (forall e :: e in out ==> last.Some? && !Less(last.value, e.key))
    && (forall k :: last.Some? && Matches(k, prefix) && Throughout(snapshots, n, k) && !Less(last.value, k)
          ==> HasKey(out, k))
  }

  lemma WalkPage(out: seq<Listed>, snapshots: seq<Snapshot>, n: nat, prefix: Option<string>, last: Option<string>,
                 page: seq<Listed>)
    requires n < |snapshots| && snapshots[n].Up?
    requires Walked(out, snapshots, n, prefix, last)
    requires IsPage(page, snapshots[n].objects, prefix, last)
    ensures KeySorted(out + page)
    ensures forall e :: e in out + page ==> Matches(e.key, prefix) && Witnessed(snapshots, n + 1, e)
    ensures page != [] ==> Walked(out + page, snapshots, n + 1, prefix, Some(page[|page| - 1].key))
    ensures IsWhole(page, snapshots[n].objects, prefix, last) ==>
              HoldsAll(out + page, snapshots, n + 1, prefix)
  {
    JoinSorted(out, page, last);
    forall e | e in out + page ensures Matches(e.key, prefix) && Witnessed(snapshots, n + 1, e) {
      if e in out {
        assert Witnessed(snapshots, n, e);
      } else {
        assert snapshots[n].Up?;
      }
    }
    forall k | Matches(k, prefix) && Throughout(snapshots, n + 1, k)
      && (HasKey(page, k) || (last.Some? && !Less(last.value, k)))
      ensures HasKey(out + page, k)
    {
      if HasKey(page, k) {
        var e :| e in page && e.key == k;
        assert e in out + page;
      } else {
        assert Throughout(snapshots, n, k);
        var e :| e in out && e.key == k;
        assert e in out + page;
      }
    }
    if page != [] {
      PageEnds(out, page, last);
      var end := page[|page| - 1];
      assert end in page;
      forall k | Matches(k, prefix) && Throughout(snapshots, n + 1, k) && !Less(end.key, k)
        ensures HasKey(out + page, k)
      {
        assert k in snapshots[n].objects;
      }
    }
  }

  lemma JoinSorted(out: seq<Listed>, page: seq<Listed>, last: Option<string>)
    requires KeySorted(out) && KeySorted(page)
    requires forall e :: e in out ==> last.Some? && !Less(last.value, e.key)
    requires forall e :: e in page ==> Beyond(e.key, last)
    ensures KeySorted(out + page)
  {
    forall i, j | 0 <= i < |out| && 0 <= j < |page| ensures Less(out[i].key, page[j].key) {
      assert out[i] in out && page[j] in page;
      LessTotal(out[i].key, last.value);
      if out[i].key != last.value {
        LessTransitive(out[i].key, last.value, page[j].key);
      }
    }
  }

  lemma PageEnds(out: seq<Listed>, page: seq<Listed>, last: Option<string>)
    requires page != [] && KeySorted(out + page)
    ensures forall e :: e in out + page ==> !Less(page[|page| - 1].key, e.key)
  {
    var all := out + page;
    assert all[|all| - 1] == page[|page| - 1];
    forall e | e in all ensures !Less(page[|page| - 1].key, e.key) {
      var i :| 0 <= i < |all| && all[i] == e;
      if i == |all| - 1 {
        LessIrreflexive(e.key);
      } else {
        LessAsymmetric(e.key, all[|all| - 1].key);
      }
    }
  }

  /** `walk_etags_paged` against a store that may be changed at will between pages: page
      `i` is answered by `snapshots[i]`, and a walk that outlives them is unfinished.

      A completed walk is sorted, reports only what some listing held, and, with pages
      of at least one key, misses no key that was there throughout. The store's own
      cursors never trip the walk's guards, so it fails only when a listing does. Every page
      but the last is full, so it completes: over keys drawn from a finite universe it takes
      no more pages than hold the universe, and one. */
  method WalkEtagsPaged(snapshots: seq<Snapshot>, prefix: Option<string>, page: nat, ghost universe: set<string>)
    returns (walk: Walk)
    ensures walk.Complete? ==>
              && 1 <= walk.pages <= |snapshots|
              && (forall i :: 0 <= i < walk.pages ==> snapshots[i].Up?)
              && KeySorted(walk.entries)
              && (forall e :: e in walk.entries ==>
                    Matches(e.key, prefix) && Witnessed(snapshots, walk.pages, e))
              && (page >= 1 ==> HoldsAll(walk.entries, snapshots, walk.pages, prefix))
              && (walk.pages - 1) * PageSize(page) <= |walk.entries| <= walk.pages * PageSize(page)
    ensures walk.Failed? ==> FirstDown(snapshots, walk.error)
    ensures |universe| < |snapshots| * PageSize(page) && Within(snapshots, universe) ==> !walk.Unfinished?
  {
    var out: seq<Listed> := [];
    var cursor: Option<string> := None;
    var n := 0;
    while n < |snapshots|
      invariant n <= |snapshots| && (forall i :: 0 <= i < n ==> snapshots[i].Up?)
      invariant cursor.Some? ==> CURSOR_PREFIX <= cursor.value
      invariant Walked(out, snapshots, n, prefix, ResumeKey(cursor))
      invariant |out| == n * PageSize(page)
      invariant page == 0 ==> n == 0
    {
      if snapshots[n].Down? {
        return Failed(snapshots[n].error);
      }
      var advance;
      out, advance := WalkOne(snapshots, prefix, page, out, n, cursor);
      n := n + 1;
      if advance.Done? {
        return Complete(out, n);
      }
      cursor := Some(advance.cursor);
    }
    walk := Unfinished(out);
    if Within(snapshots, universe) {
      WithinUniverse(out, snapshots, universe);
    }
  }

  /** One page of the walk: it ends the walk with everything that was there throughout, or
      leaves it after the last key of a page that was not empty. */
  method WalkOne(snapshots: seq<Snapshot>, prefix: Option<string>, page: nat,
                 before: seq<Listed>, n: nat, cursor: Option<string>)
    returns (out: seq<Listed>, advance: Advance)
    requires n < |snapshots| && snapshots[n].Up?
    requires cursor.Some? ==> CURSOR_PREFIX <= cursor.value
    requires Walked(before, snapshots, n, prefix, ResumeKey(cursor))
    ensures KeySorted(out)
    ensures forall e :: e in out ==> Matches(e.key, prefix) && Witnessed(snapshots, n + 1, e)
    ensures |before| <= |out| <= |before| + PageSize(page)
    ensures page == 0 ==> advance.Done?
    ensures page >= 1 && advance.Done? ==> HoldsAll(out, snapshots, n + 1, prefix)
    ensures advance.Next? ==>
              && |out| == |before| + PageSize(page) && CURSOR_PREFIX <= advance.cursor
              && Walked(out, snapshots, n + 1, prefix, ResumeKey(Some(advance.cursor)))
  {
    var listing := ListObjects(snapshots[n].objects, prefix, page, cursor);
    var response := listing.value;
    WalkPage(before, snapshots, n, prefix, ResumeKey(cursor), response.objects);
    if response.truncated {
      CursorMoves(response, snapshots[n].objects, prefix, cursor);
    }
    out := before + response.objects;
    advance := AdvanceFrom(response.truncated, response.nextCursor, cursor).value;
  }

  lemma CursorMoves(response: ListResponse, objects: map<string, string>,
                    prefix: Option<string>, cursor: Option<string>)
    requires response.objects != [] && IsPage(response.objects, objects, prefix, ResumeKey(cursor))
    requires response.nextCursor == Some(CURSOR_PREFIX + response.objects[|response.objects| - 1].key)
    requires cursor.Some? ==> CURSOR_PREFIX <= cursor.value
    ensures response.nextCursor != cursor
    ensures ResumeKey(response.nextCursor) == Some(response.objects[|response.objects| - 1].key)
  {
    var last := response.objects[|response.objects| - 1];
    assert last in response.objects;
    assert (CURSOR_PREFIX + last.key)[|CURSOR_PREFIX|..] == last.key;
    if cursor.Some? {
      LessIrreflexive(last.key);
    }
  }

  lemma WithinUniverse(out: seq<Listed>, snapshots: seq<Snapshot>, universe: set<string>)
    requires KeySorted(out)
    requires forall e :: e in out ==> Witnessed(snapshots, |snapshots|, e)
    requires Within(snapshots, universe)
    ensures |out| <= |universe|
  {
    var keys := Map(out, (e: Listed) => e.key);
    var elements := set k | k in keys;
    assert Sorted(keys);
    SortedCount(keys, elements);
    forall k | k in elements ensures k in universe {
      var i :| 0 <= i < |keys| && keys[i] == k;
      assert out[i] in out;
    }
    SubsetSize(elements, universe);
  }
}
