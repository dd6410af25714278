/** The in-memory object store and its conditional writes (sections 13.1.1 and 13.1.2 of
    RFC 9110). `ETag`s are the quoted hexadecimal digest of an object's bytes. */
module ObjectStore {
  import opened Basics
  import opened Text

  type Digest = Bytes -> string

  predicate IsHex(c: char) {
    '0' <= c <= '9' || 'a' <= c <= 'f'
  }

  /** What is assumed of the content hash: hexadecimal, and free of collisions. */
  ghost predicate GoodDigest(digest: Digest) {
    && (forall b: Bytes, c :: c in digest(b) ==> IsHex(c))
    && (forall a: Bytes, b: Bytes :: digest(a) == digest(b) ==> a == b)
  }

  function Etag(digest: Digest, bytes: Bytes): string {
    "\"" + digest(bytes) + "\""
  }

  type Key = (string, string)
  datatype Stored = Stored(bytes: Bytes, contentType: Option<string>, etag: string)
  datatype Store = Store(buckets: set<string>, objects: map<Key, Stored>)

  datatype Conditions = Conditions(ifMatch: Option<string>, ifNoneMatch: Option<string>)
  datatype Error = BucketNotFound | NotFound | PreconditionFailed
  datatype Written = Written(etag: string, created: bool)

  // ---------------------------------------------------------------- preconditions

  /** `If-Match`: strong comparison with any member of the list, or `*`. */
  predicate MatchesIfMatch(current: string, value: string) {
    Trim(value) == "*" || exists tag :: tag in Split(value, ',') && Trim(tag) == current
  }

  function StripWeak(tag: string): string {
    if "W/" <= tag then StripWeak(tag[2..]) else tag
  }

  /** `If-None-Match`: weak comparison, never true of an object that is not there. */
  predicate MatchesIfNoneMatch(current: Option<string>, value: string) {
    current.Some?
    && (Trim(value) == "*"
        || exists tag :: tag in Split(value, ',') && StripWeak(Trim(tag)) == StripWeak(current.value))
  }

  predicate WriteAllowed(current: Option<string>, c: Conditions) {
    && (c.ifMatch.Some? ==> current.Some? && MatchesIfMatch(current.value, c.ifMatch.value))
    && (c.ifNoneMatch.Some? ==> !MatchesIfNoneMatch(current, c.ifNoneMatch.value))
  }

  // ---------------------------------------------------------------- operations

  function EtagAt(store: Store, key: Key): Option<string> {
    if key in store.objects then Some(store.objects[key].etag) else None
  }

  function Put(digest: Digest, store: Store, key: Key, bytes: Bytes, contentType: Option<string>, c: Conditions)
    : (Store, Result<Written, Error>)
  {
    if key.0 !in store.buckets then (store, Failure(BucketNotFound))
    else if !WriteAllowed(EtagAt(store, key), c) then (store, Failure(PreconditionFailed))
    else
      var etag := Etag(digest, bytes);
      (store.(objects := store.objects[key := Stored(bytes, contentType, etag)]),
       Success(Written(etag, key !in store.objects)))
  }

  function Copy(store: Store, kb: string, source: string, destination: string,
                sourceIfMatch: Option<string>, ifNoneMatch: Option<string>, contentType: Option<string>)
    : (Store, Result<Written, Error>)
  {
    var (from, to) := ((kb, source), (kb, destination));
    if kb !in store.buckets then (store, Failure(BucketNotFound))
    else if from !in store.objects then (store, Failure(NotFound))
    else
      var stored := store.objects[from];
      if sourceIfMatch.Some? && !MatchesIfMatch(stored.etag, sourceIfMatch.value) then
        (store, Failure(PreconditionFailed))
      else if !WriteAllowed(EtagAt(store, to), Conditions(None, ifNoneMatch)) then
        (store, Failure(PreconditionFailed))
      else
        var kind := if contentType.Some? then contentType else stored.contentType;
        (store.(objects := store.objects[to := Stored(stored.bytes, kind, stored.etag)]),
         Success(Written(stored.etag, to !in store.objects)))
  }

  /** Deleting nothing is a success that says so: the result is whether it was there. */
  function Delete(store: Store, key: Key, ifMatch: Option<string>): (Store, Result<bool, Error>) {
    if key.0 !in store.buckets then (store, Failure(BucketNotFound))
    else if ifMatch.Some? && !(key in store.objects && MatchesIfMatch(store.objects[key].etag, ifMatch.value)) then
      (store, Failure(PreconditionFailed))
    else (store.(objects := store.objects - {key}), Success(key in store.objects))
  }

  datatype Op =
    | EnsureBucket(kb: string)
    | PutOp(key: Key, bytes: Bytes, contentType: Option<string>, conditions: Conditions)
    | CopyOp(kb: string, source: string, destination: string,
             sourceIfMatch: Option<string>, ifNoneMatch: Option<string>, kind: Option<string>)
    | DeleteOp(key: Key, ifMatch: Option<string>)

  function Apply(digest: Digest, store: Store, op: Op): Store {
    match op
    case EnsureBucket(kb) => store.(buckets := store.buckets + {kb})
    case PutOp(key, bytes, contentType, c) => Put(digest, store, key, bytes, contentType, c).0
    case CopyOp(kb, source, destination, sourceIfMatch, ifNoneMatch, kind) =>
      Copy(store, kb, source, destination, sourceIfMatch, ifNoneMatch, kind).0
    case DeleteOp(key, ifMatch) => Delete(store, key, ifMatch).0
  }

  /** What an operation that writes answers; `None` for one that does not write. */
  function Outcome(digest: Digest, store: Store, op: Op): Option<Result<Written, Error>> {
    match op
    case PutOp(key, bytes, contentType, c) => Some(Put(digest, store, key, bytes, contentType, c).1)
    case CopyOp(kb, source, destination, sourceIfMatch, ifNoneMatch, kind) =>
      Some(Copy(store, kb, source, destination, sourceIfMatch, ifNoneMatch, kind).1)
    case _ => None
  }

  function Target(op: Op): Option<Key> {
    match op
    case EnsureBucket(_) => None
    case PutOp(key, _, _, _) => Some(key)
    case CopyOp(kb, _, destination, _, _, _) => Some((kb, destination))
    case DeleteOp(key, _) => Some(key)
  }

  /** Whether the operation writes this key, and succeeds. */
  predicate Writes(digest: Digest, store: Store, op: Op, key: Key) {
    Target(op) == Some(key) && Outcome(digest, store, op).Some? && Outcome(digest, store, op).value.Success?
  }

  predicate CreateOnly(op: Op) {
    match op
    case PutOp(_, _, _, c) => c.ifNoneMatch.Some? && Trim(c.ifNoneMatch.value) == "*"
    case CopyOp(_, _, _, _, ifNoneMatch, _) => ifNoneMatch.Some? && Trim(ifNoneMatch.value) == "*"
    case _ => false
  }

  predicate Deletes(store: Store, op: Op, key: Key) {
    op.DeleteOp? && op.key == key && Delete(store, key, op.ifMatch).1 == Success(true)
  }

  const EMPTY := Store({}, map[])

  ghost predicate IsRun(digest: Digest, run: seq<Store>, ops: seq<Op>) {
    && |run| == |ops| + 1 && run[0] == EMPTY
    && forall i :: 0 <= i < |ops| ==> run[i + 1] == Apply(digest, run[i], ops[i])
  }

  // ---------------------------------------------------------------- theorems

  ghost predicate Hashed(digest: Digest, store: Store) {
    forall k :: k in store.objects ==> store.objects[k].etag == Etag(digest, store.objects[k].bytes)
  }

  /** In every run each object's `ETag` is the hash of its bytes. */
  lemma {:induction false} EtagsAreHashes(digest: Digest, run: seq<Store>, ops: seq<Op>, i: nat)
    requires IsRun(digest, run, ops) && i < |run|
    ensures Hashed(digest, run[i])
  {
    if i > 0 {
      EtagsAreHashes(digest, run, ops, i - 1);
      assert run[i] == Apply(digest, run[i - 1], ops[i - 1]);
    }
  }

  lemma EtagIsPlain(digest: Digest, bytes: Bytes)
    requires GoodDigest(digest)
    ensures var e := Etag(digest, bytes); Trim(e) == e && e != "*" && Split(e, ',') == [e]
  {
    var e := Etag(digest, bytes);
    assert forall c :: c in e ==> c == '"' || c in digest(bytes);
    assert forall c :: c in digest(bytes) ==> IsHex(c);
    assert !IsHex(',') && ',' !in e;
    SplitAbsent(e, ',');
  }

  /** A tag as a client sends it back: the `ETag` issued for some bytes, behind any number
      of weakness marks. */
  datatype Tag = Tag(bytes: Bytes, weak: nat)

  function Marks(n: nat): string {
    if n == 0 then "" else "W/" + Marks(n - 1)
  }

  function TagText(digest: Digest, tag: Tag): string {
    Marks(tag.weak) + Etag(digest, tag.bytes)
  }

  lemma OneMark(n: nat, e: string)
    ensures Marks(n + 1) + e == "W/" + (Marks(n) + e)
  {
  }

  lemma StripOne(text: string)
    ensures StripWeak("W/" + text) == StripWeak(text)
  {
    assert ("W/" + text)[2..] == text;
  }

  lemma {:induction false} MarksStripped(n: nat, e: string)
    requires e != "" && e[0] == '"'
    ensures StripWeak(Marks(n) + e) == e
  {
    if n == 0 {
      assert Marks(0) + e == e;
    } else {
      MarksStripped(n - 1, e);
      OneMark(n - 1, e);
      StripOne(Marks(n - 1) + e);
    }
  }

  lemma MarksAre(n: nat, e: string)
    requires |e| >= 2 && e[0] == '"'
    ensures |Marks(n) + e| >= 2
    ensures (Marks(n) + e)[0] == (if n == 0 then '"' else 'W')
    ensures (Marks(n) + e)[|Marks(n) + e| - 1] == e[|e| - 1]
  {
    if n > 0 {
      OneMark(n - 1, e);
    }
  }

  lemma {:induction false} MarksHold(n: nat, c: char)
    requires c in Marks(n)
    ensures c == 'W' || c == '/'
  {
    if n > 0 && c in Marks(n - 1) {
      MarksHold(n - 1, c);
    }
  }

  /** No separator in it, nothing to trim, and not the wildcard. */
  lemma TagIsPlain(digest: Digest, tag: Tag)
    requires GoodDigest(digest)
    ensures var text := TagText(digest, tag);
            && Split(text, ',') == [text] && Trim(text) == text != "*" && |text| >= 2
            && (text[0] == if tag.weak == 0 then '"' else 'W') && text[|text| - 1] == '"'
            && StripWeak(text) == Etag(digest, tag.bytes)
  {
    var text := TagText(digest, tag);
    EtagIsPlain(digest, tag.bytes);
    SplitPresent(Etag(digest, tag.bytes), ',');
    MarksAre(tag.weak, Etag(digest, tag.bytes));
    MarksStripped(tag.weak, Etag(digest, tag.bytes));
    if ',' in Marks(tag.weak) { MarksHold(tag.weak, ','); }
    SplitAbsent(text, ',');
  }

  /** Tags as a client would list them. */
  function TagList(digest: Digest, list: seq<Tag>): string
    requires list != []
  {
    if |list| == 1 then TagText(digest, list[0])
    else TagText(digest, list[0]) + ", " + TagList(digest, list[1..])
  }

  lemma {:induction false} TagListEnds(digest: Digest, list: seq<Tag>)
    requires GoodDigest(digest) && list != []
    ensures var value := TagList(digest, list);
            && |value| >= 2 && (value[0] == '"' || value[0] == 'W') && value[|value| - 1] == '"'
            && Trim(value) == value != "*"
    decreases |list|
  {
    TagIsPlain(digest, list[0]);
    if |list| > 1 {
      TagListEnds(digest, list[1..]);
    }
  }

  lemma {:induction false} TagListPieces(digest: Digest, list: seq<Tag>)
    requires GoodDigest(digest) && list != []
    ensures var pieces := Split(TagList(digest, list), ',');
            |pieces| == |list| && forall i :: 0 <= i < |list| ==> Trim(pieces[i]) == TagText(digest, list[i])
    decreases |list|
  {
    TagIsPlain(digest, list[0]);
    if |list| > 1 {
      TagListPieces(digest, list[1..]);
      SplitList(TagText(digest, list[0]), TagList(digest, list[1..]));
    }
  }

  lemma TagMatches(digest: Digest, current: Bytes, tag: Tag)
    requires GoodDigest(digest)
    ensures TagText(digest, tag) == Etag(digest, current) <==> tag.weak == 0 && tag.bytes == current
    ensures StripWeak(TagText(digest, tag)) == StripWeak(Etag(digest, current)) <==> tag.bytes == current
  {
    TagIsPlain(digest, tag);
    TagIsPlain(digest, Tag(current, 0));
    EtagInjective(digest, tag.bytes, current);
    assert TagText(digest, Tag(current, 0)) == Etag(digest, current);
    assert Marks(0) + Etag(digest, tag.bytes) == Etag(digest, tag.bytes);
  }

  /** `If-Match` on a list of issued tags matches exactly an object that holds the bytes a
      strong one of them was issued for. */
  lemma IfMatchList(digest: Digest, current: Bytes, list: seq<Tag>)
    requires GoodDigest(digest) && list != []
    ensures MatchesIfMatch(Etag(digest, current), TagList(digest, list)) <==> Tag(current, 0) in list
  {
    TagListEnds(digest, list);
    TagListPieces(digest, list);
    var pieces := Split(TagList(digest, list), ',');
    forall i | 0 <= i < |list|
      ensures pieces[i] in pieces && (Trim(pieces[i]) == Etag(digest, current) <==> list[i] == Tag(current, 0))
    {
      TagMatches(digest, current, list[i]);
    }
  }

  /** `If-None-Match` on one matches exactly an object that holds the bytes any of them was
      issued for, weak or strong. */
  lemma IfNoneMatchList(digest: Digest, current: Bytes, list: seq<Tag>)
    requires GoodDigest(digest) && list != []
    ensures MatchesIfNoneMatch(Some(Etag(digest, current)), TagList(digest, list))
            <==> exists tag :: tag in list && tag.bytes == current
  {
    TagListEnds(digest, list);
    TagListPieces(digest, list);
    var pieces := Split(TagList(digest, list), ',');
    forall i | 0 <= i < |list|
      ensures pieces[i] in pieces
      ensures StripWeak(Trim(pieces[i])) == StripWeak(Etag(digest, current)) <==> list[i].bytes == current
    {
      TagMatches(digest, current, list[i]);
    }
  }

  /** One more tag in front of a list is one more piece in front of its pieces. */
  lemma SplitList(e: string, rest: string)
    requires Split(e, ',') == [e]
    ensures var pieces, more := Split(e + ", " + rest, ','), Split(rest, ',');
            && |pieces| == |more| + 1 && pieces[0] == e
            && (forall i :: 0 <= i < |more| ==> Trim(pieces[i + 1]) == Trim(more[i]))
  {
    SplitPresent(e, ',');
    assert e + ", " + rest == e + [','] + (" " + rest);
    SplitAt(e, ',', " " + rest);
    SplitAfterSpace(rest);
  }

  lemma EtagInjective(digest: Digest, a: Bytes, b: Bytes)
    requires GoodDigest(digest)
    ensures Etag(digest, a) == Etag(digest, b) <==> a == b
  {
    var x, y := Etag(digest, a), Etag(digest, b);
    assert x[1..|x| - 1] == digest(a) && y[1..|y| - 1] == digest(b);
  }

  // ---------------------------------------------------------------- what is allowed

  /** A condition as a client means it: not set, any object, or an object with the bytes
      one of these tags was issued for. */
  datatype Condition = Unset | AnyObject | AnyOf(tags: seq<Tag>)

  function Header(digest: Digest, c: Condition): Option<string> {
    match c
    case Unset => None
    case AnyObject => Some("*")
    case AnyOf(tags) => if tags == [] then None else Some(TagList(digest, tags))
  }

  function BytesAt(store: Store, key: Key): Option<Bytes> {
    if key in store.objects then Some(store.objects[key].bytes) else None
  }

  /** Met by the object as `If-Match`, where only strong tags count. */
  predicate Met(c: Condition, current: Option<Bytes>) {
    match c
    case Unset => true
    case AnyObject => current.Some?
    case AnyOf(tags) => tags == [] || (current.Some? && Tag(current.value, 0) in tags)
  }

  /** Stopped by the object as `If-None-Match`, where weak tags count too. */
  predicate Stopped(c: Condition, current: Option<Bytes>) {
    match c
    case Unset => false
    case AnyObject => current.Some?
    case AnyOf(tags) => current.Some? && exists tag :: tag in tags && tag.bytes == current.value
  }

  lemma MetIff(digest: Digest, store: Store, key: Key, c: Condition)
    requires GoodDigest(digest) && Hashed(digest, store) && Header(digest, c).Some?
    ensures (key in store.objects && MatchesIfMatch(store.objects[key].etag, Header(digest, c).value))
            <==> Met(c, BytesAt(store, key))
  {
    if key in store.objects && c.AnyOf? {
      IfMatchList(digest, store.objects[key].bytes, c.tags);
    }
  }

  lemma StoppedIff(digest: Digest, store: Store, key: Key, c: Condition)
    requires GoodDigest(digest) && Hashed(digest, store) && Header(digest, c).Some?
    ensures MatchesIfNoneMatch(EtagAt(store, key), Header(digest, c).value) <==> Stopped(c, BytesAt(store, key))
  {
    if key in store.objects && c.AnyOf? {
      IfNoneMatchList(digest, store.objects[key].bytes, c.tags);
    }
  }

  lemma AllowedIff(digest: Digest, store: Store, key: Key, ifMatch: Condition, ifNoneMatch: Condition)
    requires GoodDigest(digest) && Hashed(digest, store)
    ensures WriteAllowed(EtagAt(store, key), Conditions(Header(digest, ifMatch), Header(digest, ifNoneMatch)))
            <==> Met(ifMatch, BytesAt(store, key)) && !Stopped(ifNoneMatch, BytesAt(store, key))
  {
    if Header(digest, ifMatch).Some? {
      MetIff(digest, store, key, ifMatch);
    }
    if Header(digest, ifNoneMatch).Some? {
      StoppedIff(digest, store, key, ifNoneMatch);
    }
  }

  /** What a PUT comes to in every reachable state, whatever its conditions: it succeeds
      exactly when the bucket is there, the object meets `If-Match` and `If-None-Match` does
      not stop it; then the object holds the new bytes, and no other object moves. With
      `If-Match` on the `ETag` of some bytes this is compare-and-swap; with
      `If-None-Match: *` it is create-only. */
  lemma PutDecided(digest: Digest, run: seq<Store>, ops: seq<Op>, i: nat, key: Key, bytes: Bytes,
                   contentType: Option<string>, ifMatch: Condition, ifNoneMatch: Condition)
    requires GoodDigest(digest) && IsRun(digest, run, ops) && i < |run|
    ensures var s := run[i];
            var (after, r) := Put(digest, s, key, bytes, contentType,
                                  Conditions(Header(digest, ifMatch), Header(digest, ifNoneMatch)));
            if key.0 !in s.buckets then after == s && r == Failure(BucketNotFound)
            else if !Met(ifMatch, BytesAt(s, key)) || Stopped(ifNoneMatch, BytesAt(s, key)) then
              after == s && r == Failure(PreconditionFailed)
            else
              && r == Success(Written(Etag(digest, bytes), key !in s.objects))
              && key in after.objects && after.objects[key] == Stored(bytes, contentType, Etag(digest, bytes))
              && OthersSame(s, after, key)
  {
    EtagsAreHashes(digest, run, ops, i);
    AllowedIff(digest, run[i], key, ifMatch, ifNoneMatch);
  }

  /** The conditions of a COPY, as its client means them. */
  lemma CopyAllowedIff(digest: Digest, s: Store, from: Key, to: Key,
                       sourceIfMatch: Condition, ifNoneMatch: Condition)
    requires GoodDigest(digest) && Hashed(digest, s) && from in s.objects
    ensures (Header(digest, sourceIfMatch).Some? ==>
               MatchesIfMatch(s.objects[from].etag, Header(digest, sourceIfMatch).value))
            <==> Met(sourceIfMatch, BytesAt(s, from))
    ensures WriteAllowed(EtagAt(s, to), Conditions(None, Header(digest, ifNoneMatch)))
            <==> !Stopped(ifNoneMatch, BytesAt(s, to))
  {
    AllowedIff(digest, s, to, Unset, ifNoneMatch);
    if Header(digest, sourceIfMatch).Some? {
      MetIff(digest, s, from, sourceIfMatch);
    }
  }

  /** What a COPY comes to: it also needs its source, and the source to meet the condition
      on it; then the destination holds the source's bytes. */
  lemma CopyDecided(digest: Digest, run: seq<Store>, ops: seq<Op>, i: nat, kb: string, source: string,
                    destination: string, sourceIfMatch: Condition, ifNoneMatch: Condition,
                    contentType: Option<string>)
    requires GoodDigest(digest) && IsRun(digest, run, ops) && i < |run|
    ensures var s, from, to := run[i], (kb, source), (kb, destination);
            var (after, r) := Copy(s, kb, source, destination,
                                   Header(digest, sourceIfMatch), Header(digest, ifNoneMatch), contentType);
            if kb !in s.buckets then after == s && r == Failure(BucketNotFound)
            else if from !in s.objects then after == s && r == Failure(NotFound)
            else if !Met(sourceIfMatch, BytesAt(s, from)) || Stopped(ifNoneMatch, BytesAt(s, to)) then
              after == s && r == Failure(PreconditionFailed)
            else Copied(digest, s, after, r, from, to, contentType)
  {
    EtagsAreHashes(digest, run, ops, i);
    if (kb, source) in run[i].objects {
      CopyAllowedIff(digest, run[i], (kb, source), (kb, destination), sourceIfMatch, ifNoneMatch);
    }
  }

  /** `to` now holds what `from` held, under a content type given or kept, and no other
      object has moved. */
  ghost predicate Copied(digest: Digest, s: Store, after: Store, r: Result<Written, Error>,
                         from: Key, to: Key, contentType: Option<string>)
    requires from in s.objects
  {
    var bytes := s.objects[from].bytes;
    var kind := if contentType.Some? then contentType else s.objects[from].contentType;
    && r == Success(Written(Etag(digest, bytes), to !in s.objects))
    && to in after.objects && after.objects[to] == Stored(bytes, kind, Etag(digest, bytes))
    && OthersSame(s, after, to)
  }

  /** What a DELETE comes to: with its condition met the key is gone, the answer says
      whether it was there, and no other object moves. */
  lemma DeleteDecided(digest: Digest, run: seq<Store>, ops: seq<Op>, i: nat, key: Key, ifMatch: Condition)
    requires GoodDigest(digest) && IsRun(digest, run, ops) && i < |run|
    ensures var s := run[i];
            var (after, r) := Delete(s, key, Header(digest, ifMatch));
            if key.0 !in s.buckets then after == s && r == Failure(BucketNotFound)
            else if !Met(ifMatch, BytesAt(s, key)) then after == s && r == Failure(PreconditionFailed)
            else r == Success(key in s.objects) && key !in after.objects && OthersSame(s, after, key)
  {
    EtagsAreHashes(digest, run, ops, i);
    if Header(digest, ifMatch).Some? {
      MetIff(digest, run[i], key, ifMatch);
    }
  }

  /** Compare-and-swap: a PUT or a DELETE whose only condition is `If-Match` on the `ETag`
      of some bytes succeeds exactly when the object is there and holds those very bytes. */
  lemma CompareAndSwap(digest: Digest, run: seq<Store>, ops: seq<Op>, i: nat,
                       key: Key, expected: Bytes, bytes: Bytes, contentType: Option<string>)
    requires GoodDigest(digest) && IsRun(digest, run, ops) && i < |run|
    ensures var s, tag := run[i], Some(Etag(digest, expected));
            var holds := key.0 in s.buckets && BytesAt(s, key) == Some(expected);
            var (put, r) := Put(digest, s, key, bytes, contentType, Conditions(tag, None));
            var (deleted, d) := Delete(s, key, tag);
            && (r.Success? <==> holds) && (d.Success? <==> holds)
            && BytesAt(put, key) == (if holds then Some(bytes) else BytesAt(s, key))
            && BytesAt(deleted, key) == (if holds then None else BytesAt(s, key))
  {
    var c := AnyOf([Tag(expected, 0)]);
    assert Marks(0) + Etag(digest, expected) == Etag(digest, expected);
    assert Header(digest, c) == Some(Etag(digest, expected));
    PutDecided(digest, run, ops, i, key, bytes, contentType, c, Unset);
    DeleteDecided(digest, run, ops, i, key, c);
  }

  /** The `ETag` a write answers with is the one its bytes are stored under, whichever
      write it was; `created` says whether the key was new; and no other object moves. */
  lemma IssuedEtagNamesBytes(digest: Digest, run: seq<Store>, ops: seq<Op>, i: nat, key: Key)
    requires IsRun(digest, run, ops) && i < |ops| && Writes(digest, run[i], ops[i], key)
    ensures key in run[i + 1].objects
    ensures var now := run[i + 1].objects[key];
            && now.etag == Etag(digest, now.bytes)
            && Outcome(digest, run[i], ops[i]) == Some(Success(Written(now.etag, key !in run[i].objects)))
            && (ops[i].PutOp? ==> now.bytes == ops[i].bytes && now.contentType == ops[i].contentType)
            && (ops[i].CopyOp? ==>
                  && (ops[i].kb, ops[i].source) in run[i].objects
                  && now.bytes == run[i].objects[(ops[i].kb, ops[i].source)].bytes
                  && (ops[i].kind.None? ==> now.contentType == run[i].objects[(ops[i].kb, ops[i].source)].contentType)
                  && (ops[i].kind.Some? ==> now.contentType == ops[i].kind))
    ensures OthersSame(run[i], run[i + 1], key)
  {
    EtagsAreHashes(digest, run, ops, i + 1);
  }

  ghost predicate OthersSame(before: Store, after: Store, key: Key) {
    before.objects - {key} == after.objects - {key} && before.buckets == after.buckets
  }

  /** An object that was there and is not any more was deleted in between. */
  lemma {:induction false} GoneMeansDeleted(digest: Digest, run: seq<Store>, ops: seq<Op>, i: nat, j: nat, key: Key)
    requires IsRun(digest, run, ops) && i <= j < |run|
    requires key in run[i].objects && key !in run[j].objects
    ensures exists m :: i <= m < j && Deletes(run[m], ops[m], key)
    decreases j - i
  {
    assert run[i + 1] == Apply(digest, run[i], ops[i]);
    if key in run[i + 1].objects {
      GoneMeansDeleted(digest, run, ops, i + 1, j, key);
    } else {
      assert Deletes(run[i], ops[i], key);
    }
  }

  /** Two successful create-only writes of one key always have a delete between them. */
  lemma CreatesAreSeparated(digest: Digest, run: seq<Store>, ops: seq<Op>, i: nat, j: nat, key: Key)
    requires IsRun(digest, run, ops) && i < j < |ops|
    requires Writes(digest, run[i], ops[i], key) && CreateOnly(ops[i])
    requires Writes(digest, run[j], ops[j], key) && CreateOnly(ops[j])
    ensures exists m :: i < m < j && Deletes(run[m], ops[m], key)
  {
    assert run[i + 1] == Apply(digest, run[i], ops[i]);
    GoneMeansDeleted(digest, run, ops, i + 1, j, key);
  }

  // ---------------------------------------------------------------- the object

  /** The store itself: each method holds the write lock throughout. */
  class InMemoryStorage {
    const digest: Digest
    var buckets: set<string>
    var objects: map<Key, Stored>

    function Value(): Store
      reads this
    {
      Store(buckets, objects)
    }

    constructor (digest: Digest)
      ensures Value() == EMPTY && this.digest == digest
    {
      this.digest := digest;
      buckets, objects := {}, map[];
    }

    method PutObject(kb: string, path: string, bytes: Bytes, contentType: Option<string>, c: Conditions)
      returns (r: Result<Written, Error>)
      modifies this
      ensures (Value(), r) == Put(digest, old(Value()), (kb, path), bytes, contentType, c)
    {
      if kb !in buckets {
        return Failure(BucketNotFound);
      }
      var key := (kb, path);
      var existing := if key in objects then Some(objects[key].etag) else None;
      if !WriteAllowed(existing, c) {
        return Failure(PreconditionFailed);
      }
      var created := existing.None?;
      var etag := Etag(digest, bytes);
      objects := objects[key := Stored(bytes, contentType, etag)];
      r := Success(Written(etag, created));
    }

    method CopyObject(kb: string, source: string, destination: string,
                      sourceIfMatch: Option<string>, ifNoneMatch: Option<string>, contentType: Option<string>)
      returns (r: Result<Written, Error>)
      modifies this
      ensures (Value(), r) == Copy(old(Value()), kb, source, destination, sourceIfMatch, ifNoneMatch, contentType)
    {
      if kb !in buckets {
        return Failure(BucketNotFound);
      }
      if (kb, source) !in objects {
        return Failure(NotFound);
      }
      var stored := objects[(kb, source)];
      if sourceIfMatch.Some? && !MatchesIfMatch(stored.etag, sourceIfMatch.value) {
        return Failure(PreconditionFailed);
      }
      var key := (kb, destination);
      var existing := if key in objects then Some(objects[key].etag) else None;
      if !WriteAllowed(existing, Conditions(None, ifNoneMatch)) {
        return Failure(PreconditionFailed);
      }
      var created := existing.None?;
      objects := objects[key := Stored(stored.bytes,
                                       if contentType.Some? then contentType else stored.contentType, stored.etag)];
      r := Success(Written(stored.etag, created));
    }

    method DeleteObject(kb: string, path: string, ifMatch: Option<string>) returns (r: Result<bool, Error>)
      modifies this
      ensures (Value(), r) == Delete(old(Value()), (kb, path), ifMatch)
    {
      if kb !in buckets {
        return Failure(BucketNotFound);
      }
      var key := (kb, path);
      if ifMatch.Some? && !(key in objects && MatchesIfMatch(objects[key].etag, ifMatch.value)) {
        return Failure(PreconditionFailed);
      }
      r := Success(key in objects);
      objects := objects - {key};
    }
  }
}
