/** Strings as the server handles them: byte-lexicographic key order, which is
    code-point order on UTF-8, and the splitting the header and path parsers do. */
module Text {
  import opened Basics

  // ---------------------------------------------------------------- order

  predicate Less(a: string, b: string) {
    if b == "" then false
    else if a == "" then true
    else a[0] < b[0] || (a[0] == b[0] && Less(a[1..], b[1..]))
  }

  lemma {:induction false} LessTransitive(a: string, b: string, c: string)
    requires Less(a, b) && Less(b, c)
    ensures Less(a, c)
  {
    if a != "" && a[0] == b[0] && b[0] == c[0] {
      LessTransitive(a[1..], b[1..], c[1..]);
    }
  }

  lemma {:induction false} LessTotal(a: string, b: string)
    ensures a == b || Less(a, b) || Less(b, a)
  {
    if a != "" && b != "" && a[0] == b[0] {
      LessTotal(a[1..], b[1..]);
      assert a == [a[0]] + a[1..] && b == [b[0]] + b[1..];
    }
  }

  lemma {:induction false} LessIrreflexive(a: string)
    ensures !Less(a, a)
  {
    if a != "" {
      LessIrreflexive(a[1..]);
    }
  }

  lemma LessAsymmetric(a: string, b: string)
    requires Less(a, b)
    ensures !Less(b, a) && a != b
  {
    LessIrreflexive(a);
    if Less(b, a) {
      LessTransitive(a, b, a);
    }
  }

  /** Two strings part ways at `i`, `a` with the lesser character or the end. */
  predicate PartsAt(a: string, b: string, i: nat) {
    i <= |a| && i < |b| && a[..i] == b[..i] && (i == |a| || a[i] < b[i])
  }

  /** The order is lexicographic: `a` comes first exactly when it ends, or has the lesser
      character, where the two part ways. */
  lemma {:induction false} LessIff(a: string, b: string)
    ensures Less(a, b) <==> exists i: nat :: PartsAt(a, b, i)
  {
    if a == "" || b == "" {
      assert b != "" ==> PartsAt(a, b, 0);
    } else {
      LessIff(a[1..], b[1..]);
      assert a == [a[0]] + a[1..] && b == [b[0]] + b[1..];
      if Less(a, b) {
        if a[0] < b[0] {
          assert PartsAt(a, b, 0);
        } else {
          var i: nat :| PartsAt(a[1..], b[1..], i);
          assert a[..i + 1] == [a[0]] + a[1..][..i] && b[..i + 1] == [b[0]] + b[1..][..i];
          assert PartsAt(a, b, i + 1);
        }
      }
      if i: nat :| PartsAt(a, b, i) {
        if i > 0 {
          assert a[0] == a[..i][0] && b[0] == b[..i][0];
          assert a[1..][..i - 1] == a[..i][1..] && b[1..][..i - 1] == b[..i][1..];
          assert PartsAt(a[1..], b[1..], i - 1);
        }
      }
    }
  }

  /** `a` does not come after `b`. */
  predicate AtMost(a: string, b: string) {
    !Less(b, a)
  }

  lemma AtMostChain(a: string, b: string, c: string)
    requires AtMost(a, b) && AtMost(b, c)
    ensures AtMost(a, c)
    ensures Less(a, b) || Less(b, c) ==> Less(a, c)
  {
    LessTotal(a, b);
    LessTotal(b, c);
    if a != b && b != c {
      LessTransitive(a, b, c);
      LessAsymmetric(a, c);
    }
  }

  ghost predicate Sorted(keys: seq<string>) {
    forall i, j :: 0 <= i < j < |keys| ==> Less(keys[i], keys[j])
  }

  lemma SortedAppend(keys: seq<string>, key: string)
    requires Sorted(keys) && (forall k :: k in keys ==> Less(k, key))
    ensures Sorted(keys + [key])
  {
  }

  /** In order, with room for repeats. */
  ghost predicate Ascending(keys: seq<string>) {
    forall i, j :: 0 <= i < j < |keys| ==> AtMost(keys[i], keys[j])
  }

  lemma AscendingAppend(keys: seq<string>, key: string)
    requires Ascending(keys) && (forall k :: k in keys ==> AtMost(k, key))
    ensures Ascending(keys + [key])
  {
  }

  lemma SortedIsAscending(keys: seq<string>)
    requires Sorted(keys)
    ensures Ascending(keys)
  {
    forall i, j | 0 <= i < j < |keys| ensures AtMost(keys[i], keys[j]) {
      LessAsymmetric(keys[i], keys[j]);
    }
  }

  lemma AscendingDistinct(keys: seq<string>)
    requires Ascending(keys) && (forall k :: multiset(keys)[k] <= 1)
    ensures Sorted(keys)
  {
    forall i, j | 0 <= i < j < |keys| ensures Less(keys[i], keys[j]) {
      LessTotal(keys[i], keys[j]);
      CountedTwice(keys, i, j);
    }
  }

  lemma CountedTwice(keys: seq<string>, i: nat, j: nat)
    requires i < j < |keys|
    ensures keys[i] == keys[j] ==> multiset(keys)[keys[j]] >= 2
  {
    assert keys == keys[..j] + [keys[j]] + keys[j + 1..];
    assert keys[..j][i] == keys[i];
  }

  lemma SortedDistinct(keys: seq<string>, key: string)
    requires Sorted(keys)
    ensures multiset(keys)[key] == if key in keys then 1 else 0
  {
    if key in keys {
      var i :| 0 <= i < |keys| && keys[i] == key;
      assert keys == keys[..i] + [key] + keys[i + 1..];
      LessIrreflexive(key);
      assert key !in keys[..i] && key !in keys[i + 1..];
    }
  }

  /** A sorted listing of a set is as long as the set, and there is only one. */
  lemma {:induction false} SortedCount(keys: seq<string>, elements: set<string>)
    requires Sorted(keys) && (forall k :: k in keys <==> k in elements)
    ensures |keys| == |elements|
    decreases |keys|
  {
    if keys == [] {
      assert elements == {};
    } else {
      var last := keys[|keys| - 1];
      var rest := keys[..|keys| - 1];
      forall k ensures k in rest <==> k in elements - {last} {
        if k in rest {
          var i :| 0 <= i < |rest| && rest[i] == k;
          LessAsymmetric(keys[i], last);
        }
      }
      SortedCount(rest, elements - {last});
    }
  }

  /** Put a key in its place. */
  function Insert(keys: seq<string>, key: string): seq<string> {
    if keys == [] || Less(key, keys[0]) then [key] + keys
    else [keys[0]] + Insert(keys[1..], key)
  }

  lemma {:induction false} InsertSorted(keys: seq<string>, key: string)
    requires Sorted(keys) && key !in keys
    ensures Sorted(Insert(keys, key))
    ensures forall k :: k in Insert(keys, key) <==> k == key || k in keys
  {
    if keys != [] {
      if Less(key, keys[0]) {
        forall k | k in keys ensures Less(key, k) {
          if k != keys[0] {
            LessTransitive(key, keys[0], k);
          }
        }
      } else {
        InsertSorted(keys[1..], key);
        LessTotal(key, keys[0]);
        assert forall k :: k in keys <==> k == keys[0] || k in keys[1..];
        var rest := Insert(keys[1..], key);
        forall i | 0 <= i < |rest| ensures Less(keys[0], rest[i]) {
          assert rest[i] in rest;
        }
      }
    }
  }

  /** The keys of a hash map, sorted, whatever order it is iterated in. */
  method SortKeys(elements: set<string>) returns (keys: seq<string>)
    ensures Sorted(keys) && (forall k :: k in keys <==> k in elements)
  {
    keys := [];
    var left := elements;
    while left != {}
      invariant left <= elements && Sorted(keys)
      invariant forall k :: k in keys <==> k in elements && k !in left
    {
      var key :| key in left;
      InsertSorted(keys, key);
      keys := Insert(keys, key);
      left := left - {key};
    }
  }

  // ---------------------------------------------------------------- filtering by key

  function Filter<T>(xs: seq<T>, p: T -> bool): seq<T> {
    if xs == [] then [] else (if p(xs[0]) then [xs[0]] else []) + Filter(xs[1..], p)
  }

  function Map<T, U>(xs: seq<T>, f: T -> U): (ys: seq<U>)
    ensures |ys| == |xs| && forall i :: 0 <= i < |xs| ==> ys[i] == f(xs[i])
  {
    if xs == [] then [] else [f(xs[0])] + Map(xs[1..], f)
  }

  ghost predicate SortedBy<T(!new)>(xs: seq<T>, key: T -> string) {
    forall i, j :: 0 <= i < j < |xs| ==> Less(key(xs[i]), key(xs[j]))
  }

  ghost predicate AscendingBy<T(!new)>(xs: seq<T>, key: T -> string) {
    forall i, j :: 0 <= i < j < |xs| ==> AtMost(key(xs[i]), key(xs[j]))
  }

  lemma SortedAscends<T(!new)>(xs: seq<T>, key: T -> string)
    requires SortedBy(xs, key)
    ensures AscendingBy(xs, key)
  {
    forall i, j | 0 <= i < j < |xs| ensures AtMost(key(xs[i]), key(xs[j])) {
      LessAsymmetric(key(xs[i]), key(xs[j]));
    }
  }

  lemma {:induction false} FilterAscends<T(!new)>(xs: seq<T>, p: T -> bool, key: T -> string)
    requires AscendingBy(xs, key)
    ensures AscendingBy(Filter(xs, p), key)
  {
    if xs != [] {
      FilterAscends(xs[1..], p, key);
      FilterKeeps(xs[1..], p, key);
      var rest := Filter(xs[1..], p);
      forall i | 0 <= i < |rest| ensures AtMost(key(xs[0]), key(rest[i])) {
        assert rest[i] in xs[1..];
      }
    }
  }

  lemma {:induction false} FilterKeeps<T(!new)>(xs: seq<T>, p: T -> bool, key: T -> string)
    ensures forall x :: x in Filter(xs, p) <==> x in xs && p(x)
    ensures SortedBy(xs, key) ==> SortedBy(Filter(xs, p), key)
  {
    if xs != [] {
      FilterKeeps(xs[1..], p, key);
      assert forall x :: x in xs <==> x == xs[0] || x in xs[1..];
      if SortedBy(xs, key) {
        assert SortedBy(xs[1..], key);
        var rest := Filter(xs[1..], p);
        forall i | 0 <= i < |rest| ensures Less(key(xs[0]), key(rest[i])) {
          assert rest[i] in xs[1..];
        }
      }
    }
  }

  /** Two entries of a sorted sequence with the same key are the same entry. */
  lemma SortedUnique<T(!new)>(xs: seq<T>, key: T -> string, a: T, b: T)
    requires SortedBy(xs, key) && a in xs && b in xs && key(a) == key(b)
    ensures a == b
  {
    var i :| 0 <= i < |xs| && xs[i] == a;
    var j :| 0 <= j < |xs| && xs[j] == b;
    LessIrreflexive(key(a));
  }

  // ---------------------------------------------------------------- splitting

  /** Rust's `split` on one character: always at least one piece. */
  function Split(s: string, c: char): (pieces: seq<string>)
    ensures |pieces| >= 1
  {
    if s == "" then [""]
    else
      var rest := Split(s[1..], c);
      if s[0] == c then [""] + rest else [[s[0]] + rest[0]] + rest[1..]
  }

  lemma {:induction false} SplitAbsent(s: string, c: char)
    requires c !in s
    ensures Split(s, c) == [s]
  {
    if s != "" {
      SplitAbsent(s[1..], c);
      assert s == [s[0]] + s[1..];
    }
  }

  lemma {:induction false} SplitPresent(s: string, c: char)
    ensures c in s <==> |Split(s, c)| > 1
  {
    if s != "" {
      SplitPresent(s[1..], c);
      assert c in s <==> s[0] == c || c in s[1..];
    }
  }

  lemma {:induction false} SplitAt(a: string, c: char, b: string)
    requires c !in a
    ensures Split(a + [c] + b, c) == [a] + Split(b, c)
  {
    var s := a + [c] + b;
    if a == "" {
      assert s[1..] == b;
    } else {
      assert s[1..] == a[1..] + [c] + b;
      SplitAt(a[1..], c, b);
      assert a == [a[0]] + a[1..];
    }
  }

  /** A space after a separator is trimmed away with the piece it starts. */
  lemma SplitAfterSpace(s: string)
    ensures var pieces, spaced := Split(s, ','), Split(" " + s, ',');
            && |spaced| == |pieces|
            && Trim(spaced[0]) == Trim(pieces[0])
            && (forall i :: 1 <= i < |pieces| ==> spaced[i] == pieces[i])
  {
    assert (" " + s)[1..] == s;
    var first := Split(s, ',')[0];
    assert (" " + first)[1..] == first;
  }

  function SplitOnce(s: string, c: char): Option<(string, string)> {
    if s == "" then None
    else if s[0] == c then Some(("", s[1..]))
    else match SplitOnce(s[1..], c)
      case None => None
      case Some((a, b)) => Some(([s[0]] + a, b))
  }

  lemma {:induction false} SplitOnceAt(a: string, c: char, b: string)
    requires c !in a
    ensures SplitOnce(a + [c] + b, c) == Some((a, b))
  {
    var s := a + [c] + b;
    if a == "" {
      assert s[1..] == b;
    } else {
      assert s[1..] == a[1..] + [c] + b;
      SplitOnceAt(a[1..], c, b);
      assert a == [a[0]] + a[1..];
    }
  }

  lemma {:induction false} SplitOnceSound(s: string, c: char)
    ensures SplitOnce(s, c).None? <==> c !in s
    ensures SplitOnce(s, c).Some? ==>
              var (a, b) := SplitOnce(s, c).value; s == a + [c] + b && c !in a
  {
    if s != "" {
      assert s == [s[0]] + s[1..];
      if s[0] != c {
        SplitOnceSound(s[1..], c);
      }
    }
  }

  predicate IsWhitespace(c: char) {
    || '\t' <= c <= '\r' || c == ' ' || c == '\U{85}' || c == '\U{a0}' || c == '\U{1680}'
    || '\U{2000}' <= c <= '\U{200a}' || c == '\U{2028}' || c == '\U{2029}' || c == '\U{202f}'
    || c == '\U{205f}' || c == '\U{3000}'
  }

  function Trim(s: string): string {
    if s == "" then s
    else if IsWhitespace(s[0]) then Trim(s[1..])
    else if IsWhitespace(s[|s| - 1]) then Trim(s[..|s| - 1])
    else s
  }

  predicate Blank(s: string) {
    forall c :: c in s ==> IsWhitespace(c)
  }

  predicate Trimmed(s: string) {
    s == "" || (!IsWhitespace(s[0]) && !IsWhitespace(s[|s| - 1]))
  }

  /** `s` is `t` between blanks. */
  ghost predicate Pads(s: string, p: string, t: string, q: string) {
    Blank(p) && Blank(q) && s == p + t + q
  }

  lemma {:induction false} TrimSplits(s: string) returns (p: string, q: string)
    ensures Trimmed(Trim(s)) && Pads(s, p, Trim(s), q)
    decreases |s|
  {
    p, q := "", "";
    if s == "" {
      return;
    } else if IsWhitespace(s[0]) {
      p, q := TrimSplits(s[1..]);
      assert s == [s[0]] + s[1..];
      p := [s[0]] + p;
    } else if IsWhitespace(s[|s| - 1]) {
      p, q := TrimSplits(s[..|s| - 1]);
      assert s == s[..|s| - 1] + [s[|s| - 1]];
      q := q + [s[|s| - 1]];
    }
  }

  lemma TrimSound(s: string)
    ensures Trimmed(Trim(s)) && exists p, q :: Pads(s, p, Trim(s), q)
  {
    var p, q := TrimSplits(s);
  }

  lemma {:induction false} TrimPads(p: string, t: string, q: string)
    requires Blank(p) && Blank(q) && Trimmed(t)
    ensures Trim(p + t + q) == t
    decreases |p| + |q|
  {
    var s := p + t + q;
    if p != "" {
      assert s[0] in p && s[1..] == p[1..] + t + q;
      TrimPads(p[1..], t, q);
    } else if q == "" {
      assert s == t;
    } else if t == "" {
      assert s[0] in q && s[1..] == p + t + q[1..];
      TrimPads(p, t, q[1..]);
    } else {
      assert s[0] == t[0] && s[|s| - 1] in q && s[..|s| - 1] == p + t + q[..|q| - 1];
      TrimPads(p, t, q[..|q| - 1]);
    }
  }

  /** Trimming takes the blanks off both ends, all of them, and nothing else. */
  lemma TrimIff(s: string, t: string)
    ensures Trim(s) == t <==> Trimmed(t) && exists p, q :: Pads(s, p, t, q)
  {
    TrimSound(s);
    if Trimmed(t) && exists p, q :: Pads(s, p, t, q) {
      var p, q :| Pads(s, p, t, q);
      TrimPads(p, t, q);
    }
  }
}
