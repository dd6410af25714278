/** Reconciliation: compare what storage holds with what the index holds, in one pass
    with two cursors, and report every key that needs a fresh look. */
module Reconcile {
  import opened Basics
  import opened Text
  import opened VectorIndex
  import opened Listing
  import ObjectPath

  /** `kept` counts the objects already indexed from exactly these bytes. */
  datatype Report = Report(objectsOnDisk: nat, kept: nat, changed: nat, orphaned: nat)

  /** Keys of the storage side that take part: actionable, not private, not reserved. */
  predicate OnDisk(key: string) {
    !ObjectPath.IsInternal(key) && ObjectPath.Parse(key).Some? && !ObjectPath.IsReserved(key)
  }

  /** Keys of the index side that take part: actionable and under the prefix. */
  predicate InIndex(key: string, prefix: Option<string>) {
    Matches(key, prefix) && ObjectPath.Parse(key).Some?
  }

  function PathOf(key: string): string {
    ObjectPath.Parse(key).GetOr(key)
  }

  /** The paths a list of raw keys parses to. */
  function Paths(raw: seq<string>): (paths: seq<string>)
    ensures |paths| == |raw|
  {
    if raw == [] then [] else Paths(raw[..|raw| - 1]) + [PathOf(raw[|raw| - 1])]
  }

  /** What one turn of the merge adds to the keys. */
  function News(differs: Option<string>): seq<string> {
    if differs.Some? then [differs.value] else []
  }

  lemma PathsOfNews(raw: seq<string>, differs: Option<string>)
    ensures Paths(raw + News(differs)) == if differs.Some? then Paths(raw) + [PathOf(differs.value)] else Paths(raw)
  {
    if differs.Some? {
      assert (raw + News(differs))[..|raw|] == raw;
    } else {
      assert raw + News(differs) == raw;
    }
  }

  lemma {:induction false} PathsAt(raw: seq<string>, i: nat)
    requires i < |raw|
    ensures Paths(raw)[i] == PathOf(raw[i])
  {
    if i < |raw| - 1 {
      PathsAt(raw[..|raw| - 1], i);
    }
  }

  // ---------------------------------------------------------------- the set specification

  function StoredKey(): Listed -> string { (e: Listed) => e.key }
  function IndexKey(): IndexedEtag -> string { (e: IndexedEtag) => e.key }

  /** The raw keys on each side, and those on both with the same `ETag`. */
  ghost function DiskKeys(stored: seq<Listed>): set<string> {
    set e | e in stored && OnDisk(e.key) :: e.key
  }

  ghost function IndexKeys(indexed: seq<IndexedEtag>, prefix: Option<string>): set<string> {
    set e | e in indexed && InIndex(e.key, prefix) :: e.key
  }

  ghost function SameKeys(stored: seq<Listed>, indexed: seq<IndexedEtag>, prefix: Option<string>): set<string> {
    set e | e in stored && OnDisk(e.key) && InIndex(e.key, prefix)
            && e.etag.Some? && IndexedEtag(e.key, e.etag.value) in indexed :: e.key
  }

  ghost function ChangedKeys(stored: seq<Listed>, indexed: seq<IndexedEtag>, prefix: Option<string>): set<string> {
    DiskKeys(stored) - SameKeys(stored, indexed, prefix)
  }

  ghost function OrphanKeys(stored: seq<Listed>, indexed: seq<IndexedEtag>, prefix: Option<string>): set<string> {
    IndexKeys(indexed, prefix) - DiskKeys(stored)
  }

  ghost function Differing(stored: seq<Listed>, indexed: seq<IndexedEtag>, prefix: Option<string>): set<string> {
    ChangedKeys(stored, indexed, prefix) + OrphanKeys(stored, indexed, prefix)
  }

  /** Which keys of the storage side take part: paths, outside the private segment, other
      than the four reserved ones. */
  lemma OnDiskIff(key: string)
    ensures OnDisk(key) <==>
              && ObjectPath.Parse(key).Some?
              && Split(key, '/')[0] != ".notedthat"
              && key != "index" && key != "index/reconcile" && key != "events" && key != "search"
  {
    ObjectPath.InternalIff(key);
  }

  /** Any other key stored is never counted as changed; an entry the index still has for
      one that is a path is an orphan, and what is no path is on neither side. */
  lemma Participation(stored: seq<Listed>, indexed: seq<IndexedEtag>, prefix: Option<string>, key: string)
    ensures key in DiskKeys(stored) <==> HasKey(stored, key) && OnDisk(key)
    ensures !OnDisk(key) ==> key !in ChangedKeys(stored, indexed, prefix)
    ensures !OnDisk(key) ==>
              (key in OrphanKeys(stored, indexed, prefix) <==>
                 && (exists e :: e in indexed && e.key == key) && Matches(key, prefix)
                 && ObjectPath.Parse(key).Some?)
  {
  }

  /** The report and the raw keys that the set specification calls for. */
  ghost predicate Outcome(stored: seq<Listed>, indexed: seq<IndexedEtag>, prefix: Option<string>,
                          r: Report, raw: seq<string>)
  {
    && r.objectsOnDisk == |DiskKeys(stored)|
    && r.kept == |SameKeys(stored, indexed, prefix)|
    && r.changed == |ChangedKeys(stored, indexed, prefix)|
    && r.orphaned == |OrphanKeys(stored, indexed, prefix)|
    && r.kept + r.changed == r.objectsOnDisk
    && |raw| == r.changed + r.orphaned
    && Sorted(raw)
    && (forall k :: k in raw <==> k in Differing(stored, indexed, prefix))
  }

  // ---------------------------------------------------------------- entry by entry

  /** The entries that take part. */
  function DiskSide(stored: seq<Listed>): seq<Listed> {
    Filter(stored, (e: Listed) => OnDisk(e.key))
  }

  function IndexSide(indexed: seq<IndexedEtag>, prefix: Option<string>): seq<IndexedEtag> {
    Filter(indexed, (e: IndexedEtag) => InIndex(e.key, prefix))
  }

  /** An index entry with the key of the one before it. */
  predicate Repeats(xs: seq<IndexedEtag>, b: nat)
    requires b < |xs|
  {
    b > 0 && xs[b - 1].key == xs[b].key
  }

  ghost predicate Answers(e: Listed, xs: seq<IndexedEtag>, b: nat)
    requires b < |xs|
  {
    !Repeats(xs, b) && xs[b].key == e.key && e.etag == Some(xs[b].etag)
  }

  /** The first index entry with this key has this `ETag`. */
  ghost predicate Answered(e: Listed, xs: seq<IndexedEtag>) {
    exists b: nat {:trigger Answers(e, xs, b)} :: b < |xs| && Answers(e, xs, b)
  }

  ghost predicate Orphan(ss: seq<Listed>, xs: seq<IndexedEtag>, b: nat)
    requires b < |xs|
  {
    Repeats(xs, b) || !HasKey(ss, xs[b].key)
  }

  /** The keys of the first `i` storage entries that the index has no answer for. */
  ghost function ChangedTo(ss: seq<Listed>, xs: seq<IndexedEtag>, i: nat): seq<string>
    requires i <= |ss|
  {
    if i == 0 then []
    else ChangedTo(ss, xs, i - 1) + if Answered(ss[i - 1], xs) then [] else [ss[i - 1].key]
  }

  /** The keys of the first `j` index entries that repeat a key or have no object. */
  ghost function OrphansTo(ss: seq<Listed>, xs: seq<IndexedEtag>, j: nat): seq<string>
    requires j <= |xs|
  {
    if j == 0 then []
    else OrphansTo(ss, xs, j - 1) + if Orphan(ss, xs, j - 1) then [xs[j - 1].key] else []
  }

  /** The outcome when index keys may repeat: each storage entry counts once, kept or
      changed by the first index entry with its key; each index entry that repeats a key
      or has no object counts as orphaned; and what is reported is exactly the changed
      and the orphaned, with their multiplicity, in order. */
  ghost predicate Tallied(ss: seq<Listed>, xs: seq<IndexedEtag>, r: Report, raw: seq<string>) {
    r.objectsOnDisk == |ss| && Counted(ss, xs, |ss|, |xs|, r, raw)
  }

  ghost predicate Counted(ss: seq<Listed>, xs: seq<IndexedEtag>, i: nat, j: nat, r: Report, raw: seq<string>) {
    && i <= |ss| && j <= |xs|
    && r.changed == |ChangedTo(ss, xs, i)| && r.kept + r.changed == i
    && r.orphaned == |OrphansTo(ss, xs, j)|
    && multiset(raw) == multiset(ChangedTo(ss, xs, i)) + multiset(OrphansTo(ss, xs, j))
    && Ascending(raw)
  }

  lemma {:induction false} ChangedMembers(ss: seq<Listed>, xs: seq<IndexedEtag>, i: nat)
    requires i <= |ss|
    ensures forall k :: k in ChangedTo(ss, xs, i) <==> exists a :: 0 <= a < i && !Answered(ss[a], xs) && ss[a].key == k
  {
    if i > 0 {
      ChangedMembers(ss, xs, i - 1);
    }
  }

  lemma {:induction false} ChangedSorted(ss: seq<Listed>, xs: seq<IndexedEtag>, i: nat)
    requires i <= |ss| && SortedBy(ss, StoredKey())
    ensures Sorted(ChangedTo(ss, xs, i))
  {
    if i > 0 {
      ChangedSorted(ss, xs, i - 1);
      ChangedMembers(ss, xs, i - 1);
      SortedAppend(ChangedTo(ss, xs, i - 1), ss[i - 1].key);
    }
  }

  lemma {:induction false} OrphanMembers(ss: seq<Listed>, xs: seq<IndexedEtag>, j: nat)
    requires j <= |xs|
    ensures forall k :: k in OrphansTo(ss, xs, j)
              <==> exists b: nat {:trigger Orphan(ss, xs, b)} :: b < j && Orphan(ss, xs, b) && xs[b].key == k
  {
    if j > 0 {
      OrphanMembers(ss, xs, j - 1);
    }
  }

  lemma {:induction false} OrphansSorted(ss: seq<Listed>, xs: seq<IndexedEtag>, j: nat)
    requires j <= |xs| && SortedBy(xs, IndexKey())
    ensures Sorted(OrphansTo(ss, xs, j))
  {
    if j > 0 {
      OrphansSorted(ss, xs, j - 1);
      OrphanMembers(ss, xs, j - 1);
      SortedAppend(OrphansTo(ss, xs, j - 1), xs[j - 1].key);
    }
  }

  // ---------------------------------------------------------------- the merge

  /** Where the two cursors stand: each side's passed keys lie below the other's
      remaining ones, but for index entries that repeat the last one passed. */
  ghost predicate Placed(ss: seq<Listed>, xs: seq<IndexedEtag>, i: nat, j: nat) {
    && i <= |ss| && j <= |xs|
    && SortedBy(ss, StoredKey()) && AscendingBy(xs, IndexKey())
    && (forall a, b :: 0 <= a < i && j <= b < |xs| ==> AtMost(ss[a].key, xs[b].key))
    && (i > 0 && j < |xs| && ss[i - 1].key == xs[j].key ==> Repeats(xs, j))
    && (forall a, b :: i <= a < |ss| && 0 <= b < j ==> Less(xs[b].key, ss[a].key))
  }

  ghost predicate Merged(ss: seq<Listed>, xs: seq<IndexedEtag>, i: nat, j: nat, r: Report, raw: seq<string>) {
    Placed(ss, xs, i, j) && Counted(ss, xs, i, j, r, raw)
  }

  /** Everything reported so far is at most a key that neither cursor has passed. */
  lemma RawBelow(ss: seq<Listed>, xs: seq<IndexedEtag>, i: nat, j: nat, r: Report, raw: seq<string>, key: string)
    requires Counted(ss, xs, i, j, r, raw)
    requires forall a :: 0 <= a < i ==> AtMost(ss[a].key, key)
    requires forall b :: 0 <= b < j ==> AtMost(xs[b].key, key)
    ensures Ascending(raw + [key])
  {
    ChangedMembers(ss, xs, i);
    OrphanMembers(ss, xs, j);
    forall k | k in raw ensures AtMost(k, key) {
      assert k in multiset(raw);
      assert k in ChangedTo(ss, xs, i) || k in OrphansTo(ss, xs, j);
    }
    AscendingAppend(raw, key);
  }

  lemma CountKept(ss: seq<Listed>, xs: seq<IndexedEtag>, i: nat, j: nat, r: Report, raw: seq<string>)
    requires Counted(ss, xs, i, j, r, raw) && i < |ss| && Answered(ss[i], xs)
    ensures Counted(ss, xs, i + 1, j, r.(kept := r.kept + 1), raw)
  {
    assert ChangedTo(ss, xs, i + 1) == ChangedTo(ss, xs, i);
  }

  lemma CountChanged(ss: seq<Listed>, xs: seq<IndexedEtag>, i: nat, j: nat, r: Report, raw: seq<string>)
    requires Counted(ss, xs, i, j, r, raw) && i < |ss| && !Answered(ss[i], xs)
    requires Ascending(raw + [ss[i].key])
    ensures Counted(ss, xs, i + 1, j, r.(changed := r.changed + 1), raw + [ss[i].key])
  {
  }

  lemma CountOrphan(ss: seq<Listed>, xs: seq<IndexedEtag>, i: nat, j: nat, r: Report, raw: seq<string>)
    requires Counted(ss, xs, i, j, r, raw) && j < |xs| && Orphan(ss, xs, j)
    requires Ascending(raw + [xs[j].key])
    ensures Counted(ss, xs, i, j + 1, r.(orphaned := r.orphaned + 1), raw + [xs[j].key])
  {
  }

  lemma CountPassed(ss: seq<Listed>, xs: seq<IndexedEtag>, i: nat, j: nat, r: Report, raw: seq<string>)
    requires Counted(ss, xs, i, j, r, raw) && j < |xs| && !Orphan(ss, xs, j)
    ensures Counted(ss, xs, i, j + 1, r, raw)
  {
    assert OrphansTo(ss, xs, j + 1) == OrphansTo(ss, xs, j);
  }

  /** A storage key below every remaining index key has no index entry at all. */
  lemma StoredAlonePlaced(ss: seq<Listed>, xs: seq<IndexedEtag>, i: nat, j: nat)
    requires Placed(ss, xs, i, j) && i < |ss|
    requires j < |xs| ==> Less(ss[i].key, xs[j].key)
    ensures Placed(ss, xs, i + 1, j)
    ensures !Answered(ss[i], xs)
  {
    var key := ss[i].key;
    LessIrreflexive(key);
    forall b | j <= b < |xs| ensures Less(key, xs[b].key) && AtMost(key, xs[b].key) {
      LessAsymmetric(key, xs[j].key);
      if b > j { AtMostChain(key, xs[j].key, xs[b].key); }
    }
  }

  lemma StoredAlone(ss: seq<Listed>, xs: seq<IndexedEtag>, i: nat, j: nat, r: Report, raw: seq<string>)
    requires Merged(ss, xs, i, j, r, raw) && i < |ss|
    requires j < |xs| ==> Less(ss[i].key, xs[j].key)
    ensures Merged(ss, xs, i + 1, j, r.(changed := r.changed + 1), raw + [ss[i].key])
  {
    StoredAlonePlaced(ss, xs, i, j);
    StoredBelow(ss, xs, i, j, r, raw);
    CountChanged(ss, xs, i, j, r, raw);
  }

  lemma StoredBelow(ss: seq<Listed>, xs: seq<IndexedEtag>, i: nat, j: nat, r: Report, raw: seq<string>)
    requires Merged(ss, xs, i, j, r, raw) && i < |ss|
    ensures Ascending(raw + [ss[i].key])
  {
    forall a | 0 <= a < i ensures AtMost(ss[a].key, ss[i].key) { LessAsymmetric(ss[a].key, ss[i].key); }
    forall b | 0 <= b < j ensures AtMost(xs[b].key, ss[i].key) { LessAsymmetric(xs[b].key, ss[i].key); }
    RawBelow(ss, xs, i, j, r, raw, ss[i].key);
  }

  /** An index key below every remaining storage key has no object behind it, or repeats
      one that had. */
  lemma IndexedAlonePlaced(ss: seq<Listed>, xs: seq<IndexedEtag>, i: nat, j: nat)
    requires Placed(ss, xs, i, j) && j < |xs|
    requires i < |ss| ==> Less(xs[j].key, ss[i].key)
    ensures Placed(ss, xs, i, j + 1)
    ensures Orphan(ss, xs, j)
  {
    var key := xs[j].key;
    forall a | i <= a < |ss| ensures Less(key, ss[a].key) {
      if a > i { LessTransitive(key, ss[i].key, ss[a].key); }
    }
    if HasKey(ss, key) {
      var e :| e in ss && e.key == key;
      var a :| 0 <= a < |ss| && ss[a] == e;
      LessIrreflexive(key);
    }
    if i > 0 && j + 1 < |xs| && ss[i - 1].key == xs[j + 1].key {
      LessTotal(key, xs[j + 1].key);
    }
  }

  lemma IndexedAlone(ss: seq<Listed>, xs: seq<IndexedEtag>, i: nat, j: nat, r: Report, raw: seq<string>)
    requires Merged(ss, xs, i, j, r, raw) && j < |xs|
    requires i < |ss| ==> ss[i].key != xs[j].key && !Less(ss[i].key, xs[j].key)
    ensures Merged(ss, xs, i, j + 1, r.(orphaned := r.orphaned + 1), raw + [xs[j].key])
  {
    if i < |ss| { LessTotal(ss[i].key, xs[j].key); }
    IndexedAlonePlaced(ss, xs, i, j);
    RawBelow(ss, xs, i, j, r, raw, xs[j].key);
    CountOrphan(ss, xs, i, j, r, raw);
  }

  /** The same key on both sides: the index entry is the first with its key, so whether
      the object is unchanged is decided by this pair alone. */
  lemma BothPlaced(ss: seq<Listed>, xs: seq<IndexedEtag>, i: nat, j: nat)
    requires Placed(ss, xs, i, j) && i < |ss| && j < |xs| && ss[i].key == xs[j].key
    ensures Placed(ss, xs, i + 1, j + 1)
    ensures Answered(ss[i], xs) <==> ss[i].etag == Some(xs[j].etag)
    ensures !Orphan(ss, xs, j)
  {
    assert ss[i] in ss;
    LessIrreflexive(xs[j].key);
    assert !Repeats(xs, j);
    assert ss[i].etag == Some(xs[j].etag) ==> Answers(ss[i], xs, j);
    forall b | j < b < |xs| && xs[b].key == xs[j].key ensures Repeats(xs, b) {
      LessTotal(xs[b - 1].key, xs[j].key);
    }
  }

  lemma BothSame(ss: seq<Listed>, xs: seq<IndexedEtag>, i: nat, j: nat, r: Report, raw: seq<string>)
    requires Merged(ss, xs, i, j, r, raw) && i < |ss| && j < |xs| && ss[i].key == xs[j].key
    requires ss[i].etag == Some(xs[j].etag)
    ensures Merged(ss, xs, i + 1, j + 1, r.(kept := r.kept + 1), raw)
  {
    BothPlaced(ss, xs, i, j);
    CountKept(ss, xs, i, j, r, raw);
    CountPassed(ss, xs, i + 1, j, r.(kept := r.kept + 1), raw);
  }

  lemma BothDiffer(ss: seq<Listed>, xs: seq<IndexedEtag>, i: nat, j: nat, r: Report, raw: seq<string>)
    requires Merged(ss, xs, i, j, r, raw) && i < |ss| && j < |xs| && ss[i].key == xs[j].key
    requires ss[i].etag != Some(xs[j].etag)
    ensures Merged(ss, xs, i + 1, j + 1, r.(changed := r.changed + 1), raw + [ss[i].key])
  {
    BothPlaced(ss, xs, i, j);
    StoredBelow(ss, xs, i, j, r, raw);
    CountChanged(ss, xs, i, j, r, raw);
    CountPassed(ss, xs, i + 1, j, r.(changed := r.changed + 1), raw + [ss[i].key]);
  }

  /** `compare`, for a storage side sorted by key and an index side in key order, repeats
      allowed. The two-cursor merge is the entry-by-entry tally; without repeats it is
      the set specification, the counts being the sizes of the raw-key sets; and `keys`
      is the paths of exactly the differing raw keys in raw key order, which is path order
      exactly when no leading slash is in the way. */
  method Compare(stored: seq<Listed>, indexed: seq<IndexedEtag>, prefix: Option<string>)
    returns (report: Report, keys: seq<string>, ghost raw: seq<string>)
    requires SortedBy(stored, StoredKey()) && AscendingBy(indexed, IndexKey())
    ensures Tallied(DiskSide(stored), IndexSide(indexed, prefix), report, raw)
    ensures SortedBy(indexed, IndexKey()) ==> Outcome(stored, indexed, prefix, report, raw)
    ensures keys == Paths(raw)
    ensures forall i :: 0 <= i < |raw| ==> ObjectPath.Parse(raw[i]) == Some(keys[i])
    ensures Ascending(keys) <==> Undisturbed(raw)
  {
    var ss, xs := DiskSide(stored), IndexSide(indexed, prefix);
    FilterKeeps(stored, (e: Listed) => OnDisk(e.key), StoredKey());
    FilterAscends(indexed, (e: IndexedEtag) => InIndex(e.key, prefix), IndexKey());
    report, keys, raw := MergeSides(ss, xs);
    if SortedBy(indexed, IndexKey()) {
      Conclude(stored, indexed, prefix, report, raw);
    }
    RawParses(stored, indexed, prefix, report, raw);
    PathsParse(raw);
    OrderIff(raw);
  }

  /** The two-cursor merge of the filtered sides. */
  method MergeSides(ss: seq<Listed>, xs: seq<IndexedEtag>)
    returns (report: Report, keys: seq<string>, ghost raw: seq<string>)
    requires SortedBy(ss, StoredKey()) && AscendingBy(xs, IndexKey())
    ensures Tallied(ss, xs, report, raw)
    ensures keys == Paths(raw)
  {
    report := Report(|ss|, 0, 0, 0);
    keys, raw := [], [];
    var i, j := 0, 0;
    while i < |ss| || j < |xs|
      invariant Merged(ss, xs, i, j, report, raw)
      invariant report.objectsOnDisk == |ss|
      invariant keys == Paths(raw)
      decreases |ss| - i + |xs| - j
    {
      var differs;
      i, j, report, differs := MergeOne(ss, xs, i, j, report, raw);
      PathsOfNews(raw, differs);
      if differs.Some? {
        keys := keys + [PathOf(differs.value)];
      }
      raw := raw + News(differs);
    }
  }

  /** One turn of the merge: which cursors move, what is counted, and the raw key to
      report, if any. */
  method MergeOne(ss: seq<Listed>, xs: seq<IndexedEtag>, i: nat, j: nat, r: Report, ghost raw: seq<string>)
    returns (i': nat, j': nat, r': Report, differs: Option<string>)
    requires Merged(ss, xs, i, j, r, raw) && (i < |ss| || j < |xs|)
    ensures i <= i' && j <= j' && i + j < i' + j'
    ensures Merged(ss, xs, i', j', r', raw + News(differs))
    ensures r'.objectsOnDisk == r.objectsOnDisk
  {
    if i < |ss| && j < |xs| && ss[i].key == xs[j].key {
      r', differs := MergePair(ss, xs, i, j, r, raw);
      return i + 1, j + 1, r', differs;
    }
    if i < |ss| && (j == |xs| || Less(ss[i].key, xs[j].key)) {
      StoredAlone(ss, xs, i, j, r, raw);
      return i + 1, j, r.(changed := r.changed + 1), Some(ss[i].key);
    }
    IndexedAlone(ss, xs, i, j, r, raw);
    return i, j + 1, r.(orphaned := r.orphaned + 1), Some(xs[j].key);
  }

  /** The turn that finds the same key under both cursors. */
  method MergePair(ss: seq<Listed>, xs: seq<IndexedEtag>, i: nat, j: nat, r: Report, ghost raw: seq<string>)
    returns (r': Report, differs: Option<string>)
    requires Merged(ss, xs, i, j, r, raw) && i < |ss| && j < |xs| && ss[i].key == xs[j].key
    ensures Merged(ss, xs, i + 1, j + 1, r', raw + News(differs))
    ensures r'.objectsOnDisk == r.objectsOnDisk
  {
    if ss[i].etag == Some(xs[j].etag) {
      BothSame(ss, xs, i, j, r, raw);
      assert raw + [] == raw;
      r', differs := r.(kept := r.kept + 1), None;
    } else {
      BothDiffer(ss, xs, i, j, r, raw);
      r', differs := r.(changed := r.changed + 1), Some(ss[i].key);
    }
  }

  // ---------------------------------------------------------------- from the tally to the sets

  /** Without repeats the tally is the set specification. */
  lemma Conclude(stored: seq<Listed>, indexed: seq<IndexedEtag>, prefix: Option<string>, r: Report, raw: seq<string>)
    requires SortedBy(stored, StoredKey()) && SortedBy(indexed, IndexKey())
    requires Tallied(DiskSide(stored), IndexSide(indexed, prefix), r, raw)
    ensures Outcome(stored, indexed, prefix, r, raw)
  {
    var ss, xs := DiskSide(stored), IndexSide(indexed, prefix);
    var changed, orphans := ChangedTo(ss, xs, |ss|), OrphansTo(ss, xs, |xs|);
    SidesAgree(stored, indexed, prefix);
    SortedCount(changed, ChangedKeys(stored, indexed, prefix));
    SortedCount(orphans, OrphanKeys(stored, indexed, prefix));
    CountKeys(ss, DiskKeys(stored));
    KeptAreTheRest(DiskKeys(stored), SameKeys(stored, indexed, prefix));
    RawIsBoth(raw, changed, orphans);
  }

  lemma KeptAreTheRest(disk: set<string>, same: set<string>)
    requires same <= disk
    ensures |disk| == |same| + |disk - same|
  {
    assert disk == same + (disk - same);
  }

  lemma RawIsBoth(raw: seq<string>, changed: seq<string>, orphans: seq<string>)
    requires Ascending(raw) && multiset(raw) == multiset(changed) + multiset(orphans)
    requires Sorted(changed) && Sorted(orphans) && (forall k :: k in changed ==> k !in orphans)
    ensures Sorted(raw) && |raw| == |changed| + |orphans|
    ensures forall k :: k in raw <==> k in changed || k in orphans
  {
    forall k ensures multiset(raw)[k] <= 1 && (k in raw <==> k in changed || k in orphans) {
      SortedDistinct(changed, k);
      SortedDistinct(orphans, k);
      assert k in raw <==> multiset(raw)[k] > 0;
    }
    AscendingDistinct(raw);
    assert |multiset(raw)| == |raw|;
  }

  lemma CountKeys(ss: seq<Listed>, keys: set<string>)
    requires SortedBy(ss, StoredKey()) && keys == set e | e in ss :: e.key
    ensures |ss| == |keys|
  {
    var list := Map(ss, StoredKey());
    forall k ensures k in list <==> k in keys {
      if k in keys {
        var e :| e in ss && e.key == k;
        var a :| 0 <= a < |ss| && ss[a] == e;
        assert list[a] == k;
      }
    }
    SortedCount(list, keys);
  }

  lemma SidesAgree(stored: seq<Listed>, indexed: seq<IndexedEtag>, prefix: Option<string>)
    requires SortedBy(stored, StoredKey()) && SortedBy(indexed, IndexKey())
    ensures var ss, xs := DiskSide(stored), IndexSide(indexed, prefix);
            var changed, orphans := ChangedTo(ss, xs, |ss|), OrphansTo(ss, xs, |xs|);
            && SortedBy(ss, StoredKey()) && DiskKeys(stored) == (set e | e in ss :: e.key)
            && Sorted(changed) && (forall k :: k in changed <==> k in ChangedKeys(stored, indexed, prefix))
            && Sorted(orphans) && (forall k :: k in orphans <==> k in OrphanKeys(stored, indexed, prefix))
  {
    var ss, xs := DiskSide(stored), IndexSide(indexed, prefix);
    FilterKeeps(stored, (e: Listed) => OnDisk(e.key), StoredKey());
    FilterKeeps(indexed, (e: IndexedEtag) => InIndex(e.key, prefix), IndexKey());
    ChangedMembers(ss, xs, |ss|);
    ChangedSorted(ss, xs, |ss|);
    OrphanMembers(ss, xs, |xs|);
    OrphansSorted(ss, xs, |xs|);
    forall k ensures k in ChangedTo(ss, xs, |ss|) <==> k in ChangedKeys(stored, indexed, prefix) {
      ChangesAgree(stored, indexed, prefix, ss, xs, k);
    }
    forall k ensures k in OrphansTo(ss, xs, |xs|) <==> k in OrphanKeys(stored, indexed, prefix) {
      OrphansAgree(stored, indexed, prefix, ss, xs, k);
    }
  }

  lemma AnsweredIff(e: Listed, xs: seq<IndexedEtag>)
    requires SortedBy(xs, IndexKey())
    ensures Answered(e, xs) <==> e.etag.Some? && IndexedEtag(e.key, e.etag.value) in xs
  {
    if e.etag.Some? && IndexedEtag(e.key, e.etag.value) in xs {
      var b :| 0 <= b < |xs| && xs[b] == IndexedEtag(e.key, e.etag.value);
      LessIrreflexive(e.key);
      assert Answers(e, xs, b);
    }
  }

  lemma ChangesAgree(stored: seq<Listed>, indexed: seq<IndexedEtag>, prefix: Option<string>,
                     ss: seq<Listed>, xs: seq<IndexedEtag>, k: string)
    requires SortedBy(stored, StoredKey()) && SortedBy(xs, IndexKey())
    requires forall e :: e in ss <==> e in stored && OnDisk(e.key)
    requires forall e :: e in xs <==> e in indexed && InIndex(e.key, prefix)
    ensures (exists a :: 0 <= a < |ss| && !Answered(ss[a], xs) && ss[a].key == k)
            <==> k in ChangedKeys(stored, indexed, prefix)
  {
    if exists e :: e in ss && e.key == k {
      var e :| e in ss && e.key == k;
      var a :| 0 <= a < |ss| && ss[a] == e;
      forall f | f in stored && f.key == k ensures f == e {
        SortedUnique(stored, StoredKey(), e, f);
      }
      AnsweredIff(e, xs);
    }
  }

  lemma OrphansAgree(stored: seq<Listed>, indexed: seq<IndexedEtag>, prefix: Option<string>,
                     ss: seq<Listed>, xs: seq<IndexedEtag>, k: string)
    requires SortedBy(xs, IndexKey())
    requires forall e :: e in ss <==> e in stored && OnDisk(e.key)
    requires forall e :: e in xs <==> e in indexed && InIndex(e.key, prefix)
    ensures (exists b: nat {:trigger Orphan(ss, xs, b)} :: b < |xs| && Orphan(ss, xs, b) && xs[b].key == k)
            <==> k in OrphanKeys(stored, indexed, prefix)
  {
    LessIrreflexive(k);
    if k in OrphanKeys(stored, indexed, prefix) {
      var e :| e in xs && e.key == k;
      var b :| 0 <= b < |xs| && xs[b] == e;
      assert Orphan(ss, xs, b);
    }
  }

  /** Everything reported is a key of one side or the other. */
  lemma ReportedFrom(ss: seq<Listed>, xs: seq<IndexedEtag>, r: Report, raw: seq<string>, key: string)
    requires Tallied(ss, xs, r, raw) && key in raw
    ensures HasKey(ss, key) || exists e :: e in xs && e.key == key
  {
    ChangedMembers(ss, xs, |ss|);
    OrphanMembers(ss, xs, |xs|);
    assert key in multiset(raw);
    assert key in ChangedTo(ss, xs, |ss|) || key in OrphansTo(ss, xs, |xs|);
    if key in ChangedTo(ss, xs, |ss|) {
      var a :| 0 <= a < |ss| && !Answered(ss[a], xs) && ss[a].key == key;
      assert ss[a] in ss;
    } else {
      var b: nat :| b < |xs| && Orphan(ss, xs, b) && xs[b].key == key;
      assert xs[b] in xs;
    }
  }

  lemma RawParses(stored: seq<Listed>, indexed: seq<IndexedEtag>, prefix: Option<string>, r: Report, raw: seq<string>)
    requires Tallied(DiskSide(stored), IndexSide(indexed, prefix), r, raw)
    ensures forall k :: k in raw ==> ObjectPath.Parse(k).Some?
  {
    FilterKeeps(stored, (e: Listed) => OnDisk(e.key), StoredKey());
    FilterKeeps(indexed, (e: IndexedEtag) => InIndex(e.key, prefix), IndexKey());
    forall k | k in raw ensures ObjectPath.Parse(k).Some? {
      ReportedFrom(DiskSide(stored), IndexSide(indexed, prefix), r, raw, k);
    }
  }

  lemma PathsParse(raw: seq<string>)
    requires forall k :: k in raw ==> ObjectPath.Parse(k).Some?
    ensures forall i :: 0 <= i < |raw| ==> ObjectPath.Parse(raw[i]) == Some(Paths(raw)[i])
  {
    forall i | 0 <= i < |raw| ensures ObjectPath.Parse(raw[i]) == Some(Paths(raw)[i]) {
      PathsAt(raw, i);
      assert raw[i] in raw;
    }
  }

  // ---------------------------------------------------------------- key order

  /** No reported key is moved past another by losing its leading slash. */
  ghost predicate Undisturbed(raw: seq<string>) {
    forall s, p :: s in raw && p in raw && "/" <= s && !("/" <= p) ==>
      if Less(p, s) then AtMost(p, s[1..]) else AtMost(s[1..], p)
  }

  /** No reported key turns into another by losing its leading slash. */
  ghost predicate Unclashing(raw: seq<string>) {
    forall s, p :: s in raw && p in raw && "/" <= s && !("/" <= p) ==> p != s[1..]
  }

  lemma PathOfKey(key: string)
    requires ObjectPath.Parse(key).Some?
    ensures PathOf(key) == if "/" <= key then key[1..] else key
  {
  }

  /** Two keys in order have their paths in order, unless exactly one has a slash. */
  lemma PairInOrder(a: string, b: string)
    requires ObjectPath.Parse(a).Some? && ObjectPath.Parse(b).Some? && ("/" <= a <==> "/" <= b)
    ensures Less(a, b) <==> Less(PathOf(a), PathOf(b))
  {
  }

  lemma PathsInOrder(raw: seq<string>, i: nat, j: nat)
    requires Ascending(raw) && Undisturbed(raw) && i < j < |raw|
    requires forall k :: k in raw ==> ObjectPath.Parse(k).Some?
    ensures AtMost(PathOf(raw[i]), PathOf(raw[j]))
    ensures Sorted(raw) && Unclashing(raw) ==> PathOf(raw[i]) != PathOf(raw[j])
  {
    var a, b := raw[i], raw[j];
    assert a in raw && b in raw && AtMost(a, b);
    PathOfKey(a);
    PathOfKey(b);
    if "/" <= a <==> "/" <= b {
      PairInOrder(a, b);
      PairInOrder(b, a);
      LessIrreflexive(PathOf(a));
    } else {
      LessTotal(a, b);
    }
  }

  lemma OrderedPathsUndisturbed(raw: seq<string>, s: string, p: string)
    requires Ascending(raw) && Ascending(Paths(raw))
    requires forall k :: k in raw ==> ObjectPath.Parse(k).Some?
    requires s in raw && p in raw && "/" <= s && !("/" <= p)
    ensures if Less(p, s) then AtMost(p, s[1..]) else AtMost(s[1..], p)
    ensures Sorted(Paths(raw)) ==> p != s[1..]
  {
    var i :| 0 <= i < |raw| && raw[i] == s;
    var j :| 0 <= j < |raw| && raw[j] == p;
    PathsAt(raw, i);
    PathsAt(raw, j);
    PathOfKey(s);
    PathOfKey(p);
    LessTotal(s, p);
    LessIrreflexive(p);
    assert i < j ==> AtMost(Paths(raw)[i], Paths(raw)[j]);
    assert j < i ==> AtMost(Paths(raw)[j], Paths(raw)[i]);
  }

  /** Exactly when the reported paths are in key order: when no slashed key is moved past
      an unslashed one. Without repeats they are also distinct exactly when no slashed
      key turns into an unslashed one. */
  lemma OrderIff(raw: seq<string>)
    requires Ascending(raw) && forall k :: k in raw ==> ObjectPath.Parse(k).Some?
    ensures Ascending(Paths(raw)) <==> Undisturbed(raw)
    ensures Sorted(raw) ==> (Sorted(Paths(raw)) <==> Undisturbed(raw) && Unclashing(raw))
  {
    var paths := Paths(raw);
    if Undisturbed(raw) {
      forall i, j | 0 <= i < j < |raw|
        ensures AtMost(paths[i], paths[j])
        ensures Sorted(raw) && Unclashing(raw) ==> Less(paths[i], paths[j])
      {
        PathsAt(raw, i);
        PathsAt(raw, j);
        PathsInOrder(raw, i, j);
        LessTotal(paths[i], paths[j]);
      }
    }
    if Sorted(paths) {
      SortedIsAscending(paths);
    }
    if Ascending(paths) {
      forall s, p | s in raw && p in raw && "/" <= s && !("/" <= p)
        ensures if Less(p, s) then AtMost(p, s[1..]) else AtMost(s[1..], p)
        ensures Sorted(paths) ==> p != s[1..]
      {
        OrderedPathsUndisturbed(raw, s, p);
      }
    }
  }

  /** Among these keys a leading slash neither reorders nor merges any two. */
  ghost predicate SlashesHarmless(keys: set<string>) {
    forall s, p :: s in keys && p in keys && "/" <= s && !("/" <= p) ==>
      p != s[1..] && (Less(p, s) <==> Less(p, s[1..]))
  }

  lemma HarmlessIff(raw: seq<string>, keys: set<string>)
    requires forall k :: k in raw <==> k in keys
    ensures SlashesHarmless(keys) <==> Undisturbed(raw) && Unclashing(raw)
  {
    forall s: string, p: string | "/" <= s && p != s[1..]
      ensures (Less(p, s) <==> Less(p, s[1..])) <==> if Less(p, s) then AtMost(p, s[1..]) else AtMost(s[1..], p)
    {
      LessTotal(p, s[1..]);
      if Less(p, s[1..]) {
        LessAsymmetric(p, s[1..]);
      }
    }
  }

  /** The documented order, in terms of what a caller passes in: `keys` is strictly in
      key order exactly when leading slashes are harmless among the differing keys. */
  lemma KeyOrderIff(stored: seq<Listed>, indexed: seq<IndexedEtag>, prefix: Option<string>, r: Report, raw: seq<string>)
    requires Outcome(stored, indexed, prefix, r, raw)
    ensures Sorted(Paths(raw)) <==> SlashesHarmless(Differing(stored, indexed, prefix))
  {
    forall k | k in raw ensures ObjectPath.Parse(k).Some? {
      DifferingParses(stored, indexed, prefix, k);
    }
    SortedIsAscending(raw);
    OrderIff(raw);
    HarmlessIff(raw, Differing(stored, indexed, prefix));
  }

  lemma DifferingParses(stored: seq<Listed>, indexed: seq<IndexedEtag>, prefix: Option<string>, key: string)
    requires key in Differing(stored, indexed, prefix)
    ensures ObjectPath.Parse(key).Some?
  {
  }

  /** The paths are the raw keys themselves exactly when no reported key has a slash. */
  lemma PathsAreKeys(raw: seq<string>)
    requires forall k :: k in raw ==> ObjectPath.Parse(k).Some?
    ensures Paths(raw) == raw <==> forall k :: k in raw ==> !("/" <= k)
  {
    forall i | 0 <= i < |raw| ensures Paths(raw)[i] == raw[i] <==> !("/" <= raw[i]) {
      assert raw[i] in raw;
      PathsAt(raw, i);
      ObjectPath.ParseNormalises(raw[i]);
    }
    if Paths(raw) == raw {
      forall k | k in raw ensures !("/" <= k) {
        var i :| 0 <= i < |raw| && raw[i] == k;
        assert Paths(raw)[i] == raw[i];
      }
    }
    if forall k :: k in raw ==> !("/" <= k) {
      assert forall i :: 0 <= i < |raw| ==> raw[i] in raw;
      assert Paths(raw) == raw;
    }
  }

  /** Comparing the objects `/b` and `0` with an empty index reports their paths out of
      key order. */
  lemma SlashBreaksOrder(r: Report, raw: seq<string>)
    requires Outcome([Listed("/b", Some("x")), Listed("0", Some("y"))], [], None, r, raw)
    ensures !Sorted(Paths(raw))
  {
    var stored := [Listed("/b", Some("x")), Listed("0", Some("y"))];
    SlashExample();
    NewObjectDiffers(stored, stored[0]);
    NewObjectDiffers(stored, stored[1]);
    KeyOrderIff(stored, [], None, r, raw);
  }

  lemma NewObjectDiffers(stored: seq<Listed>, e: Listed)
    requires e in stored && OnDisk(e.key)
    ensures e.key in Differing(stored, [], None)
  {
  }

  lemma SlashExample()
    ensures OnDisk("/b") && OnDisk("0") && "/b"[1..] == "b"
    ensures !Less("0", "/b") && Less("0", "b")
  {
    assert "/b"[1..] == "b";
    SplitAbsent("b", '/');
    SplitAbsent("0", '/');
    assert ObjectPath.Parse("/b") == Some("b") && ObjectPath.Parse("0") == Some("0");
  }

  // ---------------------------------------------------------------- a whole pass

  datatype Pass = Skipped(error: StorageError) | Walking | Reconciled(report: Report, keys: seq<string>)

  /** Storage never reports an empty `ETag`. */
  ghost predicate EtagsNonEmpty(snapshots: seq<Snapshot>) {
    forall i, k :: 0 <= i < |snapshots| && snapshots[i].Up? && k in snapshots[i].objects
      ==> snapshots[i].objects[k] != ""
  }

  /** The key had this one `ETag` at every moment of the walk. */
  ghost predicate Steady(snapshots: seq<Snapshot>, n: nat, key: string, etag: string)
    requires n <= |snapshots|
  {
    forall i :: 0 <= i < n ==> snapshots[i].Up? && key in snapshots[i].objects && snapshots[i].objects[key] == etag
  }

  ghost predicate Never(snapshots: seq<Snapshot>, key: string) {
    forall i :: 0 <= i < |snapshots| && snapshots[i].Up? ==> key !in snapshots[i].objects
  }

  /** The promises of a completed pass, about any one key: nothing that was in storage
      throughout is taken for an orphan; what storage never held and the index does is;
      a kept object has every chunk built from an `ETag` storage reported, so one with
      mixed chunks is never kept; and a steady, fully indexed object is left alone. */
  ghost predicate Sound(points: seq<Point>, snapshots: seq<Snapshot>, pages: nat,
                        walked: seq<Listed>, objects: seq<IndexedEtag>, key: string)
    requires pages <= |snapshots|
  {
    && (OnDisk(key) && Throughout(snapshots, pages, key) ==>
          key in DiskKeys(walked) && key !in OrphanKeys(walked, objects, None))
    && (ObjectPath.Parse(key).Some? && HasChunks(points, key) && Never(snapshots, key) ==>
          key in OrphanKeys(walked, objects, None))
    && (key in SameKeys(walked, objects, None) ==>
          exists e :: EveryChunkTagged(points, key, e) && Witnessed(snapshots, pages, Listed(key, Some(e))))
    && (forall e :: OnDisk(key) && pages >= 1
                    && Steady(snapshots, pages, key, e) && EveryChunkTagged(points, key, e) ==>
          key !in ChangedKeys(walked, objects, None))
  }

  lemma PassSound(points: seq<Point>, snapshots: seq<Snapshot>, pages: nat,
                  walked: seq<Listed>, objects: seq<IndexedEtag>, key: string)
    requires pages <= |snapshots| && EtagsNonEmpty(snapshots)
    requires forall e :: e in walked ==> Witnessed(snapshots, pages, e)
    requires forall k :: Throughout(snapshots, pages, k) ==> HasKey(walked, k)
    requires forall o :: o in objects <==> HasChunks(points, o.key) && Settles(points, o.key, o.etag)
    ensures Sound(points, snapshots, pages, walked, objects, key)
  {
    if key in SameKeys(walked, objects, None) {
      KeptIsTagged(points, snapshots, pages, walked, objects, key);
    }
    if ObjectPath.Parse(key).Some? && HasChunks(points, key) && Never(snapshots, key) {
      NeverOrphaned(points, snapshots, pages, walked, objects, key);
    }
    forall e | OnDisk(key) && pages >= 1 && Steady(snapshots, pages, key, e) && EveryChunkTagged(points, key, e)
      ensures key !in ChangedKeys(walked, objects, None)
    {
      SteadyIsKept(points, snapshots, pages, walked, objects, key, e);
    }
  }

  lemma KeptIsTagged(points: seq<Point>, snapshots: seq<Snapshot>, pages: nat,
                     walked: seq<Listed>, objects: seq<IndexedEtag>, key: string)
    requires pages <= |snapshots| && EtagsNonEmpty(snapshots)
    requires forall e :: e in walked ==> Witnessed(snapshots, pages, e)
    requires forall o :: o in objects <==> HasChunks(points, o.key) && Settles(points, o.key, o.etag)
    requires key in SameKeys(walked, objects, None)
    ensures exists e :: EveryChunkTagged(points, key, e) && Witnessed(snapshots, pages, Listed(key, Some(e)))
  {
    var w :| w in walked && w.key == key && w.etag.Some? && IndexedEtag(key, w.etag.value) in objects;
    assert Witnessed(snapshots, pages, w);
    assert EveryChunkTagged(points, key, w.etag.value);
  }

  lemma SteadyIsKept(points: seq<Point>, snapshots: seq<Snapshot>, pages: nat,
                     walked: seq<Listed>, objects: seq<IndexedEtag>, key: string, etag: string)
    requires 1 <= pages <= |snapshots| && EtagsNonEmpty(snapshots)
    requires forall e :: e in walked ==> Witnessed(snapshots, pages, e)
    requires forall k :: Throughout(snapshots, pages, k) ==> HasKey(walked, k)
    requires forall o :: o in objects <==> HasChunks(points, o.key) && Settles(points, o.key, o.etag)
    requires OnDisk(key) && Steady(snapshots, pages, key, etag) && EveryChunkTagged(points, key, etag)
    ensures key !in ChangedKeys(walked, objects, None)
  {
    assert Throughout(snapshots, pages, key);
    assert snapshots[0].objects[key] == etag;
    var w :| w in walked && w.key == key;
    assert Witnessed(snapshots, pages, w);
    assert w == Listed(key, Some(etag));
    assert IndexedEtag(key, etag) in objects;
  }

  lemma NeverOrphaned(points: seq<Point>, snapshots: seq<Snapshot>, pages: nat,
                      walked: seq<Listed>, objects: seq<IndexedEtag>, key: string)
    requires pages <= |snapshots|
    requires forall e :: e in walked ==> Witnessed(snapshots, pages, e)
    requires forall o :: o in objects <==> HasChunks(points, o.key) && Settles(points, o.key, o.etag)
    requires ObjectPath.Parse(key).Some? && HasChunks(points, key) && Never(snapshots, key)
    ensures key in OrphanKeys(walked, objects, None)
  {
    var etag := if exists e :: e != "" && AllCarry(points, key, e) then
                  (var e :| e != "" && AllCarry(points, key, e); e) else "";
    assert IndexedEtag(key, etag) in objects;
    forall w | w in walked ensures w.key != key {
      assert Witnessed(snapshots, pages, w);
    }
  }

  /** One reconciliation pass: read the index, walk storage, compare. Storage may change
      at every page of the walk; a pass is still walking only if it is cut off before it
      has had the pages to hold every key, and one. */
  method ReconcilePass(points: seq<Point>, snapshots: seq<Snapshot>, page: nat, ghost universe: set<string>)
    returns (pass: Pass, ghost pages: nat, ghost walked: seq<Listed>,
             ghost objects: seq<IndexedEtag>, ghost raw: seq<string>)
    requires page >= 1 && EtagsNonEmpty(snapshots)
    ensures pages <= |snapshots|
    ensures pass.Skipped? ==> FirstDown(snapshots, pass.error)
    ensures |universe| < |snapshots| * PageSize(page) && Within(snapshots, universe) ==> !pass.Walking?
    ensures pass.Reconciled? ==>
              && (forall key :: Sound(points, snapshots, pages, walked, objects, key))
              && Outcome(walked, objects, None, pass.report, raw)
              && pass.keys == Paths(raw)
  {
    pages, walked, raw := 0, [], [];
    var found := IndexedObjects(points, None);
    objects := found;
    var walk := WalkEtagsPaged(snapshots, None, page, universe);
    if walk.Failed? {
      return Skipped(walk.error), pages, walked, objects, raw;
    }
    if walk.Unfinished? {
      return Walking, pages, walked, objects, raw;
    }
    pages, walked := walk.pages, walk.entries;
    forall key ensures Sound(points, snapshots, pages, walked, objects, key) {
      PassSound(points, snapshots, pages, walked, objects, key);
    }
    assert SortedBy(walk.entries, StoredKey()) && SortedBy(found, IndexKey());
    SortedAscends(found, IndexKey());
    var report, keys;
    report, keys, raw := Compare(walk.entries, found, None);
    pass := Reconciled(report, keys);
  }
}
