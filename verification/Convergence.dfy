/** What repeated reconciliation comes to while storage stands still: a pass reports what
    differs, the indexer looks at every reported path again, and the next pass compares
    what that left. */
module Convergence {
  import opened Basics
  import opened Text
  import opened VectorIndex
  import opened Listing
  import opened Reconcile
  import ObjectPath

  /** Storage as both its listing and `HEAD` report it, key to `ETag` if there is one, and
      what the indexer makes of an object: whether its type and size let it be indexed,
      and whether its body yields any chunk. */
  datatype World = World(storage: map<string, Option<string>>, indexable: string -> bool, chunked: string -> bool)

  /** The one `ETag` the chunks of each indexed object carry. */
  type Index = map<string, string>

  function Get(index: Index, key: string): Option<string> {
    if key in index then Some(index[key]) else None
  }

  predicate InStep(w: World, index: Index, key: string) {
    key in w.storage && w.storage[key].Some? && Get(index, key) == w.storage[key]
  }

  /** `handle_upsert` of a refresh: a reserved key, a missing object or one that cannot be
      indexed leaves the index; without an `ETag` the attempt fails and changes nothing;
      an object in step is skipped; otherwise it is indexed, or leaves the index if it
      has no chunks. */
  function Handled(w: World, index: Index, path: string): Index {
    if ObjectPath.IsReserved(path) || path !in w.storage || !w.indexable(path) then index - {path}
    else if w.storage[path].None? || InStep(w, index, path) then index
    else if w.chunked(path) then index[path := w.storage[path].value]
    else index - {path}
  }

  function HandledAll(w: World, index: Index, paths: seq<string>): Index
    decreases |paths|
  {
    if paths == [] then index else HandledAll(w, Handled(w, index, paths[0]), paths[1..])
  }

  /** Each path's entry depends on nothing but whether it was reported: neither the order
      of the handlers nor a path reported twice matters. */
  lemma {:induction false} HandledAllAt(w: World, index: Index, paths: seq<string>, path: string)
    ensures Get(HandledAll(w, index, paths), path)
         == if path in paths then Get(Handled(w, index, path), path) else Get(index, path)
    decreases |paths|
  {
    if paths != [] {
      HandledAllAt(w, Handled(w, index, paths[0]), paths[1..], path);
    }
  }

  // ---------------------------------------------------------------- passes

  /** One pass: the listings it compared, its report and the raw keys it found. */
  datatype Pass = Pass(stored: seq<Listed>, indexed: seq<IndexedEtag>, report: Report, raw: seq<string>)

  ghost predicate Lists(stored: seq<Listed>, storage: map<string, Option<string>>) {
    forall e :: e in stored <==> e.key in storage && e.etag == storage[e.key]
  }

  ghost predicate ListsIndex(indexed: seq<IndexedEtag>, index: Index) {
    forall e :: e in indexed <==> Get(index, e.key) == Some(e.etag)
  }

  /** `pass` compares storage with `index`, and handling what it reports gives `after`. */
  ghost predicate Ran(w: World, index: Index, pass: Pass, after: Index) {
    && Lists(pass.stored, w.storage) && ListsIndex(pass.indexed, index)
    && Outcome(pass.stored, pass.indexed, None, pass.report, pass.raw)
    && after == HandledAll(w, index, Paths(pass.raw))
  }

  /** A run of passes from one state of the index to the next. */
  ghost predicate RanAt(w: World, run: seq<Index>, passes: seq<Pass>, i: nat)
    requires i < |passes| && |run| == |passes| + 1
  {
    Ran(w, run[i], passes[i], run[i + 1])
  }

  ghost predicate IsRun(w: World, run: seq<Index>, passes: seq<Pass>) {
    && |run| == |passes| + 1 && Normal(run[0])
    && forall i: nat :: i < |passes| ==> RanAt(w, run, passes, i)
  }

  /** Entries are written under paths that parse to themselves. */
  ghost predicate Normal(index: Index) {
    forall k :: k in index ==> ObjectPath.Parse(k) == Some(k)
  }

  predicate OnDiskIn(w: World, key: string) {
    key in w.storage && OnDisk(key)
  }

  /** What a pass reports, key by key. */
  predicate Reported(w: World, index: Index, key: string) {
    if OnDiskIn(w, key) then !InStep(w, index, key) else key in index && ObjectPath.Parse(key).Some?
  }

  lemma DifferingIff(w: World, index: Index, stored: seq<Listed>, indexed: seq<IndexedEtag>, key: string)
    requires Lists(stored, w.storage) && ListsIndex(indexed, index)
    ensures key in DiskKeys(stored) <==> OnDiskIn(w, key)
    ensures key in SameKeys(stored, indexed, None) <==> OnDiskIn(w, key) && InStep(w, index, key)
    ensures key in IndexKeys(indexed, None) <==> key in index && ObjectPath.Parse(key).Some?
  {
    if key in w.storage {
      assert Listed(key, w.storage[key]) in stored;
    }
    if key in index {
      assert IndexedEtag(key, index[key]) in indexed;
    }
  }

  lemma PassReports(w: World, index: Index, pass: Pass, after: Index, key: string)
    requires Ran(w, index, pass, after)
    ensures key in pass.raw <==> Reported(w, index, key)
  {
    DifferingIff(w, index, pass.stored, pass.indexed, key);
  }

  /** A key and the same key with a slash in front are reported under one path. */
  predicate Touched(w: World, index: Index, path: string) {
    Reported(w, index, path) || Reported(w, index, "/" + path)
  }

  lemma SlashedReads(path: string)
    requires ObjectPath.Parse(path) == Some(path)
    ensures !("/" <= path) && ObjectPath.Parse("/" + path) == Some(path)
  {
    ObjectPath.ParseNormalises(path);
    assert ("/" + path)[1..] == path;
  }

  lemma RawOf(raw: seq<string>, path: string)
    requires (forall k :: k in raw ==> ObjectPath.Parse(k).Some?) && path in Paths(raw)
    ensures ObjectPath.Parse(path) == Some(path) && (path in raw || "/" + path in raw)
  {
    var i :| 0 <= i < |raw| && Paths(raw)[i] == path;
    PathsAt(raw, i);
    assert raw[i] in raw;
    ObjectPath.ParseNormalises(raw[i]);
  }

  lemma PathFor(raw: seq<string>, key: string)
    requires key in raw
    ensures PathOf(key) in Paths(raw)
  {
    var i :| 0 <= i < |raw| && raw[i] == key;
    PathsAt(raw, i);
  }

  lemma RanParses(w: World, index: Index, pass: Pass, after: Index)
    requires Ran(w, index, pass, after)
    ensures forall k :: k in pass.raw ==> ObjectPath.Parse(k).Some?
  {
    forall k | k in pass.raw ensures ObjectPath.Parse(k).Some? {
      DifferingParses(pass.stored, pass.indexed, None, k);
    }
  }

  lemma PathsTouched(w: World, index: Index, raw: seq<string>, path: string)
    requires forall k :: k in raw ==> ObjectPath.Parse(k).Some?
    requires forall k :: k in raw <==> Reported(w, index, k)
    requires ObjectPath.Parse(path) == Some(path)
    ensures path in Paths(raw) <==> Touched(w, index, path)
  {
    SlashedReads(path);
    if path in Paths(raw) {
      RawOf(raw, path);
    }
    if path in raw {
      PathFor(raw, path);
    }
    if "/" + path in raw {
      PathFor(raw, "/" + path);
    }
  }

  /** What a pass leaves in the index under one path. */
  ghost predicate Leaves(w: World, index: Index, after: Index, path: string) {
    if ObjectPath.Parse(path) == Some(path) then
      Get(after, path) == if Touched(w, index, path) then Get(Handled(w, index, path), path) else Get(index, path)
    else path !in after
  }

  lemma PassLeaves(w: World, index: Index, pass: Pass, after: Index, path: string)
    requires Ran(w, index, pass, after) && Normal(index)
    ensures Leaves(w, index, after, path)
  {
    HandledAllAt(w, index, Paths(pass.raw), path);
    RanParses(w, index, pass, after);
    forall k ensures k in pass.raw <==> Reported(w, index, k) {
      PassReports(w, index, pass, after, k);
    }
    if ObjectPath.Parse(path) == Some(path) {
      PathsTouched(w, index, pass.raw, path);
    } else if path in Paths(pass.raw) {
      RawOf(pass.raw, path);
    }
  }

  lemma PassKeepsNormal(w: World, index: Index, pass: Pass, after: Index)
    requires Ran(w, index, pass, after) && Normal(index)
    ensures Normal(after)
  {
    forall k | k in after ensures ObjectPath.Parse(k) == Some(k) {
      PassLeaves(w, index, pass, after, k);
    }
  }

  lemma NormalUnslashed(index: Index, key: string)
    requires Normal(index) && key in index
    ensures !("/" <= key)
  {
    SlashedReads(key);
  }

  // ---------------------------------------------------------------- what never settles

  /** An object the index can never be brought in step with: its raw key has a leading
      slash, or storage gives it no `ETag`, or it is not in the index and cannot be put
      there. One that cannot be indexed but happens to be in step stays so unless a twin
      with a leading slash makes the indexer look. */
  predicate NeverInStep(w: World, index: Index, key: string) {
    && OnDiskIn(w, key)
    && (|| "/" <= key
        || w.storage[key].None?
        || (if w.indexable(key) then !InStep(w, index, key) && !w.chunked(key)
            else !InStep(w, index, key) || "/" + key in w.storage))
  }

  /** A private object that is in the index, or is put there for a twin with a leading
      slash, and that the indexer finds fit to keep: the comparison calls it an orphan
      every time. */
  predicate NeverRemoved(w: World, index: Index, key: string) {
    && ObjectPath.IsInternal(key) && ObjectPath.Parse(key).Some? && key in w.storage && w.indexable(key)
    && (key in index || "/" + key in w.storage)
    && (if w.storage[key].Some? then w.chunked(key) || InStep(w, index, key) else key in index)
  }

  predicate Stuck(w: World, index: Index, key: string) {
    NeverInStep(w, index, key) || NeverRemoved(w, index, key)
  }

  lemma InternalKeys(key: string)
    requires ObjectPath.IsInternal(key)
    ensures !ObjectPath.IsReserved(key) && !("/" <= key)
  {
    assert key[0] == '.';
  }

  lemma NormalKeys(key: string)
    requires !("/" <= key) && ObjectPath.Parse(key).Some?
    ensures ObjectPath.Parse(key) == Some(key) && OnDisk("/" + key)
  {
    ObjectPath.ParseNormalises(key);
    SlashedReads(key);
    assert ("/" + key)[0] == '/';
  }

  /** What kind of key it is settles which of its facts matter. */
  lemma KindsOfKey(key: string)
    ensures ObjectPath.IsInternal(key) ==> !ObjectPath.IsReserved(key) && !("/" <= key)
    ensures ObjectPath.Parse(key).Some? && !("/" <= key) ==> ObjectPath.Parse(key) == Some(key) && OnDisk("/" + key)
    ensures "/" <= key ==> ObjectPath.Parse(key) != Some(key)
  {
    if ObjectPath.IsInternal(key) { InternalKeys(key); }
    if ObjectPath.Parse(key).Some? && !("/" <= key) { NormalKeys(key); }
    if ObjectPath.Parse(key) == Some(key) { SlashedReads(key); }
  }

  /** After one pass, what the next one reports is exactly what is stuck. */
  lemma NextReports(w: World, index: Index, after: Index, key: string)
    requires Normal(index) && Leaves(w, index, after, key)
    ensures Reported(w, after, key) <==> Stuck(w, index, key)
  {
    KindsOfKey(key);
  }

  /** And what is stuck stays so. */
  lemma StuckStays(w: World, index: Index, after: Index, key: string)
    requires Normal(index) && Leaves(w, index, after, key)
    ensures Stuck(w, after, key) <==> Stuck(w, index, key)
  {
    KindsOfKey(key);
  }

  lemma OnePass(w: World, index: Index, pass: Pass, after: Index, key: string)
    requires Ran(w, index, pass, after) && Normal(index)
    ensures key in pass.raw <==> Reported(w, index, key)
    ensures Reported(w, after, key) <==> Stuck(w, index, key)
    ensures Stuck(w, after, key) <==> Stuck(w, index, key)
  {
    PassReports(w, index, pass, after, key);
    PassLeaves(w, index, pass, after, key);
    NextReports(w, index, after, key);
    StuckStays(w, index, after, key);
  }

  lemma PassAt(w: World, run: seq<Index>, passes: seq<Pass>, i: nat, key: string)
    requires IsRun(w, run, passes) && i < |passes| && Normal(run[i])
    ensures key in passes[i].raw <==> Reported(w, run[i], key)
    ensures Reported(w, run[i + 1], key) <==> Stuck(w, run[i], key)
    ensures Stuck(w, run[i + 1], key) <==> Stuck(w, run[i], key)
  {
    assert RanAt(w, run, passes, i);
    OnePass(w, run[i], passes[i], run[i + 1], key);
  }

  lemma NormalAt(w: World, run: seq<Index>, passes: seq<Pass>, i: nat)
    requires IsRun(w, run, passes) && i < |passes| && Normal(run[i])
    ensures Normal(run[i + 1])
  {
    assert RanAt(w, run, passes, i);
    PassKeepsNormal(w, run[i], passes[i], run[i + 1]);
  }

  lemma {:induction false} NormalThroughout(w: World, run: seq<Index>, passes: seq<Pass>, i: nat)
    requires IsRun(w, run, passes) && i < |run|
    ensures Normal(run[i])
  {
    if i > 0 {
      NormalThroughout(w, run, passes, i - 1);
      NormalAt(w, run, passes, i - 1);
    }
  }

  lemma {:induction false} StuckThroughout(w: World, run: seq<Index>, passes: seq<Pass>, i: nat, key: string)
    requires IsRun(w, run, passes) && i < |run|
    ensures Stuck(w, run[i], key) <==> Stuck(w, run[0], key)
  {
    if i > 0 {
      StuckThroughout(w, run, passes, i - 1, key);
      NormalThroughout(w, run, passes, i - 1);
      PassAt(w, run, passes, i - 1, key);
    }
  }

  lemma LaterReports(w: World, run: seq<Index>, passes: seq<Pass>, i: nat, key: string)
    requires IsRun(w, run, passes) && 1 <= i < |passes|
    ensures key in passes[i].raw <==> Stuck(w, run[0], key)
  {
    NormalThroughout(w, run, passes, i - 1);
    NormalThroughout(w, run, passes, i);
    StuckThroughout(w, run, passes, i - 1, key);
    PassAt(w, run, passes, i - 1, key);
    PassAt(w, run, passes, i, key);
  }

  lemma CleanIffNothing(pass: Pass)
    requires Outcome(pass.stored, pass.indexed, None, pass.report, pass.raw)
    ensures pass.report.changed == 0 && pass.report.orphaned == 0 <==> forall k :: k !in pass.raw
  {
    if pass.raw != [] {
      assert pass.raw[0] in pass.raw;
    }
  }

  /** Convergence: while storage stands still, one pass does all that any number of
      passes can. Every pass after the first reports exactly the keys that were stuck to
      begin with, and is clean exactly when there were none. */
  lemma Converges(w: World, run: seq<Index>, passes: seq<Pass>, i: nat)
    requires IsRun(w, run, passes) && 1 <= i < |passes|
    ensures forall k :: k in passes[i].raw <==> Stuck(w, run[0], k)
    ensures passes[i].report.changed == 0 && passes[i].report.orphaned == 0 <==> forall k :: !Stuck(w, run[0], k)
  {
    forall k ensures k in passes[i].raw <==> Stuck(w, run[0], k) {
      LaterReports(w, run, passes, i, k);
    }
    assert RanAt(w, run, passes, i);
    CleanIffNothing(passes[i]);
  }

  /** A stored key with a leading slash is reported as changed by every pass, the first
      included: the index cannot hold an entry for it. */
  lemma SlashedNeverClean(w: World, run: seq<Index>, passes: seq<Pass>, i: nat, key: string)
    requires IsRun(w, run, passes) && i < |passes|
    requires OnDiskIn(w, key) && "/" <= key
    ensures key in passes[i].raw && passes[i].report.changed > 0
  {
    NormalThroughout(w, run, passes, i);
    if key in run[i] { NormalUnslashed(run[i], key); }
    assert RanAt(w, run, passes, i);
    DifferingIff(w, run[i], passes[i].stored, passes[i].indexed, key);
    assert key in ChangedKeys(passes[i].stored, passes[i].indexed, None);
  }

  // ---------------------------------------------------------------- a pass, carried out

  /** One pass and its consumer: list both sides, compare, handle every path reported. The
      report is clean exactly when nothing differs, and what is left to report afterwards
      is what is stuck. */
  method RunPass(w: World, index: Index) returns (report: Report, after: Index, ghost pass: Pass)
    ensures Ran(w, index, pass, after) && pass.report == report
    ensures report.changed == 0 && report.orphaned == 0 <==> forall k :: !Reported(w, index, k)
    ensures Normal(index) ==> forall k :: Reported(w, after, k) <==> Stuck(w, index, k)
  {
    var stored := ListStorage(w.storage);
    var indexed := ListIndex(index);
    SortedAscends(indexed, IndexKey());
    var keys;
    ghost var raw;
    report, keys, raw := Compare(stored, indexed, None);
    pass := Pass(stored, indexed, report, raw);
    after := HandleAll(w, index, keys);
    forall k ensures k in raw <==> Reported(w, index, k) {
      PassReports(w, index, pass, after, k);
    }
    CleanIffNothing(pass);
    if Normal(index) {
      forall k ensures Reported(w, after, k) <==> Stuck(w, index, k) {
        OnePass(w, index, pass, after, k);
      }
    }
  }

  method HandleAll(w: World, index: Index, paths: seq<string>) returns (after: Index)
    ensures after == HandledAll(w, index, paths)
  {
    after := index;
    for i := 0 to |paths|
      invariant HandledAll(w, after, paths[i..]) == HandledAll(w, index, paths)
    {
      assert paths[i..][1..] == paths[i + 1..];
      after := Handled(w, after, paths[i]);
    }
  }

  method ListStorage(storage: map<string, Option<string>>) returns (stored: seq<Listed>)
    ensures SortedBy(stored, StoredKey()) && Lists(stored, storage)
  {
    var keys := SortKeys(storage.Keys);
    stored := Map(keys, (k: string) => Listed(k, if k in storage then storage[k] else None));
    forall e ensures e in stored <==> e.key in storage && e.etag == storage[e.key] {
      if e.key in storage {
        assert e.key in keys;
        var i :| 0 <= i < |keys| && keys[i] == e.key;
        assert stored[i].key == e.key;
      }
    }
  }

  method ListIndex(index: Index) returns (indexed: seq<IndexedEtag>)
    ensures SortedBy(indexed, IndexKey()) && ListsIndex(indexed, index)
  {
    var keys := SortKeys(index.Keys);
    indexed := Map(keys, (k: string) => IndexedEtag(k, if k in index then index[k] else ""));
    forall e ensures e in indexed <==> Get(index, e.key) == Some(e.etag) {
      if e.key in index {
        assert e.key in keys;
        var i :| 0 <= i < |keys| && keys[i] == e.key;
        assert indexed[i].key == e.key;
      }
    }
  }
}
