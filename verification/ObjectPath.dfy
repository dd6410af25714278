/** Object keys: which strings are paths, and which paths are special. */
module ObjectPath {
  import opened Basics
  import opened Text

  const RESERVED_KEYS: set<string> := {"index", "index/reconcile", "events", "search"}

  predicate IsInternal(key: string) {
    key == ".notedthat" || ".notedthat/" <= key
  }

  predicate IsReserved(key: string) {
    key in RESERVED_KEYS
  }

  predicate BadSegment(segment: string) {
    segment == "" || segment == "." || segment == ".."
  }

  /** `try_from_str`: strip one leading slash, then refuse anything that is empty, holds
      a backslash or a NUL, or has an empty, `.` or `..` segment. */
  function Parse(input: string): Option<string> {
    var s := if "/" <= input then input[1..] else input;
    if s == "" || '\\' in s || '\0' in s || (exists segment :: segment in Split(s, '/') && BadSegment(segment))
    then None
    else Some(s)
  }

  /** Parsing normalises: the path is the input less one leading slash, never starts
      with a slash itself, and parses to itself. */
  lemma ParseNormalises(input: string)
    requires Parse(input).Some?
    ensures var path := Parse(input).value;
            && (input == path || input == "/" + path)
            && path != "" && path[0] != '/'
            && Parse(path) == Some(path)
            && (path == input <==> !("/" <= input))
  {
    var path := Parse(input).value;
    if path[0] == '/' {
      assert Split(path, '/')[0] == "";
      assert "" in Split(path, '/') && BadSegment("");
      assert false;
    }
    if "/" <= input {
      assert input == "/" + path;
    }
  }

  // ---------------------------------------------------------------- which strings are paths

  predicate GoodSegment(segment: string) {
    && segment != "" && segment != "." && segment != ".."
    && '/' !in segment && '\\' !in segment && '\0' !in segment
  }

  function Join(segments: seq<string>): string
    requires segments != []
  {
    if |segments| == 1 then segments[0] else segments[0] + "/" + Join(segments[1..])
  }

  lemma {:induction false} SplitJoin(segments: seq<string>)
    requires segments != [] && forall s :: s in segments ==> '/' !in s
    ensures Split(Join(segments), '/') == segments
    decreases |segments|
  {
    var first := segments[0];
    if |segments| == 1 {
      SplitAbsent(first, '/');
    } else {
      SplitJoin(segments[1..]);
      assert Join(segments) == first + ['/'] + Join(segments[1..]);
      SplitAt(first, '/', Join(segments[1..]));
    }
  }

  lemma {:induction false} JoinSplit(s: string)
    ensures Join(Split(s, '/')) == s
    ensures forall segment :: segment in Split(s, '/') ==> '/' !in segment
  {
    if s != "" {
      JoinSplit(s[1..]);
      var rest := Split(s[1..], '/');
      assert s == [s[0]] + s[1..];
      if s[0] == '/' {
        assert Split(s, '/')[1..] == rest;
      } else {
        var pieces := Split(s, '/');
        assert pieces[1..] == rest[1..];
        assert forall piece :: piece in pieces <==> piece == [s[0]] + rest[0] || piece in rest[1..];
      }
    }
  }

  lemma {:induction false} JoinHolds(segments: seq<string>, c: char)
    requires segments != [] && c != '/'
    ensures c in Join(segments) <==> exists s :: s in segments && c in s
    decreases |segments|
  {
    assert segments[0] in segments;
    if |segments| > 1 {
      JoinHolds(segments[1..], c);
      assert forall s :: s in segments <==> s == segments[0] || s in segments[1..];
    }
  }

  ghost predicate Spells(path: string, segments: seq<string>) {
    segments != [] && (forall s :: s in segments ==> GoodSegment(s)) && path == Join(segments)
  }

  lemma JoinedReads(path: string, segments: seq<string>)
    requires Spells(path, segments)
    ensures !("/" <= path) && path != "" && Parse(path) == Some(path)
  {
    SplitJoin(segments);
    JoinHolds(segments, '\\');
    JoinHolds(segments, '\0');
    assert segments[0] in segments;
    assert path[0] == segments[0][0];
    assert segments[0][0] in segments[0];
  }

  lemma ReadIsJoined(path: string)
    requires Parse(path) == Some(path)
    ensures Spells(path, Split(path, '/'))
  {
    var segments := Split(path, '/');
    ParseNormalises(path);
    JoinSplit(path);
    JoinHolds(segments, '\\');
    JoinHolds(segments, '\0');
    forall s | s in segments ensures GoodSegment(s) {
      assert !BadSegment(s);
    }
  }

  /** Which strings are paths: one leading slash aside, exactly those made of one or more
      segments joined with slashes, each non-empty, not `.` or `..`, and free of slashes,
      backslashes and NULs. The path is those segments, joined. */
  lemma PathGrammar(input: string, path: string)
    ensures Parse(input) == Some(path) <==>
              (input == path || input == "/" + path) && exists segments :: Spells(path, segments)
  {
    if Parse(input) == Some(path) {
      ParseNormalises(input);
      ReadIsJoined(path);
    }
    if (input == path || input == "/" + path) && exists segments :: Spells(path, segments) {
      var segments :| Spells(path, segments);
      JoinedReads(path, segments);
      assert ("/" + path)[1..] == path;
    }
  }

  /** Private keys are those whose first segment is `.notedthat`. */
  lemma InternalIff(key: string)
    ensures IsInternal(key) <==> Split(key, '/')[0] == ".notedthat"
  {
    var pieces := Split(key, '/');
    JoinSplit(key);
    assert '/' !in ".notedthat";
    if key == ".notedthat" {
      SplitAbsent(key, '/');
    } else if ".notedthat/" <= key {
      assert key == ".notedthat" + ['/'] + key[11..];
      SplitAt(".notedthat", '/', key[11..]);
    }
    if pieces[0] == ".notedthat" && |pieces| > 1 {
      assert key == ".notedthat" + "/" + Join(pieces[1..]);
    }
  }
}
