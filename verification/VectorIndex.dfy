/** What the search index holds, as reconciliation asks for it: one `ETag` per object,
    settled from the `ETag`s its chunks carry. */
module VectorIndex {
  import opened Basics
  import opened Text

  datatype Point = Point(objectKey: Option<string>, etag: Option<string>)
  datatype IndexedEtag = IndexedEtag(key: string, etag: string)

  /** `merge_chunk_etag`: the first chunk sets the object's `ETag`, and a later one that
      disagrees empties it. */
  function Merge(byKey: map<string, string>, key: string, etag: Option<string>): map<string, string> {
    var e := etag.GetOr("");
    if key !in byKey then byKey[key := e]
    else if byKey[key] != e then byKey[key := ""]
    else byKey
  }

  predicate InScope(point: Point, prefix: Option<string>) {
    point.objectKey.Some? && (prefix.None? || prefix.value <= point.objectKey.value)
  }

  ghost predicate IsChunkOf(point: Point, key: string) {
    point.objectKey == Some(key)
  }

  ghost predicate HasChunks(points: seq<Point>, key: string) {
    exists p :: p in points && IsChunkOf(p, key)
  }

  /** Every chunk of `key` carries `etag` (a chunk without one counts as carrying ""). */
  ghost predicate AllCarry(points: seq<Point>, key: string, etag: string) {
    forall p :: p in points && IsChunkOf(p, key) ==> p.etag.GetOr("") == etag
  }

  /** The answer for one object: the `ETag` all its chunks carry, or "" when they
      disagree. Says nothing about the order the chunks come in. */
  ghost predicate Settles(points: seq<Point>, key: string, etag: string) {
    if etag == "" then !exists e :: e != "" && AllCarry(points, key, e)
    else AllCarry(points, key, etag)
  }

  ghost predicate Folded(points: seq<Point>, prefix: Option<string>, byKey: map<string, string>) {
    && (forall k :: k in byKey <==> HasChunks(points, k) && (prefix.None? || prefix.value <= k))
    && (forall k :: k in byKey ==> Settles(points, k, byKey[k]))
  }

  lemma FoldOne(points: seq<Point>, p: Point, prefix: Option<string>, byKey: map<string, string>)
    requires Folded(points, prefix, byKey)
    ensures InScope(p, prefix) ==> Folded(points + [p], prefix, Merge(byKey, p.objectKey.value, p.etag))
    ensures !InScope(p, prefix) ==> Folded(points + [p], prefix, byKey)
  {
    var more := points + [p];
    assert forall q :: q in more <==> q in points || q == p;
    assert p in more;
    forall k ensures HasChunks(more, k) <==> HasChunks(points, k) || IsChunkOf(p, k) {
      if HasChunks(points, k) {
        var q :| q in points && IsChunkOf(q, k);
        assert q in more;
      }
    }
    forall k, e ensures AllCarry(more, k, e)
                   <==> AllCarry(points, k, e) && (IsChunkOf(p, k) ==> p.etag.GetOr("") == e) {
    }
    if InScope(p, prefix) {
      var key, e := p.objectKey.value, p.etag.GetOr("");
      var byKey' := Merge(byKey, key, p.etag);
      forall k | k in byKey' ensures Settles(more, k, byKey'[k]) {
        if k != key {
          assert Settles(points, k, byKey[k]);
        } else if key in byKey {
          assert Settles(points, key, byKey[key]);
          var q :| q in points && IsChunkOf(q, key);
          assert byKey[key] != "" ==> forall e' :: AllCarry(points, key, e') ==> e' == byKey[key];
        } else {
          assert !HasChunks(points, key);
          assert AllCarry(points, key, e);
        }
      }
    }
  }

  /** `indexed_objects`: fold every chunk, then report by key. The report is sorted, has
      one entry per object with chunks in scope, and its `ETag` is the settled one. */
  method IndexedObjects(points: seq<Point>, prefix: Option<string>) returns (objects: seq<IndexedEtag>)
    ensures SortedBy(objects, (o: IndexedEtag) => o.key)
    ensures forall o :: o in objects <==>
              && HasChunks(points, o.key) && (prefix.None? || prefix.value <= o.key)
              && Settles(points, o.key, o.etag)
  {
    var byKey: map<string, string> := map[];
    for i := 0 to |points|
      invariant Folded(points[..i], prefix, byKey)
    {
      FoldOne(points[..i], points[i], prefix, byKey);
      assert points[..i + 1] == points[..i] + [points[i]];
      if InScope(points[i], prefix) {
        byKey := Merge(byKey, points[i].objectKey.value, points[i].etag);
      }
    }
    assert points[..|points|] == points;
    var keys := SortKeys(byKey.Keys);
    objects := [];
    for i := 0 to |keys|
      invariant |objects| == i
      invariant forall j :: 0 <= j < i ==> objects[j] == IndexedEtag(keys[j], byKey[keys[j]])
    {
      objects := objects + [IndexedEtag(keys[i], byKey[keys[i]])];
    }
    forall o ensures o in objects <==> HasChunks(points, o.key) && (prefix.None? || prefix.value <= o.key)
                                       && Settles(points, o.key, o.etag) {
      if HasChunks(points, o.key) && (prefix.None? || prefix.value <= o.key) && Settles(points, o.key, o.etag) {
        assert o.key in keys;
        var j :| 0 <= j < |keys| && keys[j] == o.key;
        SettlesUnique(points, o.key, o.etag, byKey[o.key]);
        assert objects[j] == o;
      }
    }
  }

  lemma SettlesUnique(points: seq<Point>, key: string, a: string, b: string)
    requires HasChunks(points, key) && Settles(points, key, a) && Settles(points, key, b)
    ensures a == b
  {
    var p :| p in points && IsChunkOf(p, key);
  }

  ghost predicate EveryChunkTagged(points: seq<Point>, key: string, etag: string) {
    HasChunks(points, key) && forall p :: p in points && IsChunkOf(p, key) ==> p.etag == Some(etag)
  }

  /** `indexed_etag`: the `ETag` of the first chunk, if it has one and every other chunk
      carries the same. The last clause is its agreement with the listing: a non-empty
      `ETag` is answered here exactly when the listing settles on it. */
  method IndexedEtagOf(points: seq<Point>, key: string) returns (r: Option<string>)
    ensures forall e :: r == Some(e) <==> EveryChunkTagged(points, key, e)
    ensures forall e :: e != "" ==> (r == Some(e) <==> HasChunks(points, key) && Settles(points, key, e))
  {
    var etags := Map(Filter(points, (p: Point) => p.objectKey == Some(key)), (p: Point) => p.etag);
    ghost var chunks := Filter(points, (p: Point) => p.objectKey == Some(key));
    FilterKeeps(points, (p: Point) => p.objectKey == Some(key), (p: Point) => "");
    if etags == [] {
      assert forall p :: p in points && IsChunkOf(p, key) ==> p in chunks;
      return None;
    }
    assert chunks[0] in chunks && IsChunkOf(chunks[0], key);
    if etags[0].None? {
      return None;
    }
    for i := 1 to |etags|
      invariant forall j :: 0 <= j < i ==> etags[j] == etags[0]
    {
      if etags[i] != etags[0] {
        assert chunks[i] in chunks && chunks[i].etag != chunks[0].etag;
        return None;
      }
    }
    r := etags[0];
    forall p | p in points && IsChunkOf(p, key) ensures p.etag == r {
      assert p in chunks;
      var j :| 0 <= j < |chunks| && chunks[j] == p;
    }
    assert EveryChunkTagged(points, key, r.value);
  }

  /** The fold does not depend on the order the backend iterates its points in. */
  lemma OrderIrrelevant(points: seq<Point>, permuted: seq<Point>, key: string, etag: string)
    requires multiset(points) == multiset(permuted)
    ensures Settles(points, key, etag) <==> Settles(permuted, key, etag)
    ensures HasChunks(points, key) <==> HasChunks(permuted, key)
  {
    assert forall p :: p in points <==> p in multiset(points);
    assert forall p :: p in permuted <==> p in multiset(permuted);
    assert forall e :: AllCarry(points, key, e) <==> AllCarry(permuted, key, e);
  }
}
