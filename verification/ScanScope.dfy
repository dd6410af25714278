/** Where a filtered listing starts: the overlap of the caller's prefix and the segment a
    grant is scoped to. */
module ScanScope {
  import opened Basics

  datatype Scope = From(prefix: Option<string>) | Disjoint

  function EffectivePrefix(requested: Option<string>, hint: Option<string>): Scope {
    if requested.None? then From(hint)
    else if hint.None? then From(requested)
    else if hint.value + "/" <= requested.value then From(requested)
    else if requested.value <= hint.value then From(hint)
    else Disjoint
  }

  predicate Under(key: string, prefix: Option<string>) {
    prefix.None? || prefix.value <= key
  }

  /** The keys a grant on a segment admits: the segment itself, and everything below it. */
  predicate Granted(key: string, hint: Option<string>) {
    hint.None? || key == hint.value || hint.value + "/" <= key
  }

  /** Narrowing drops no row and adds none: every key both asked for and granted is under
      the chosen prefix, every key under it was asked for and starts with the granted
      segment, and nothing is scanned exactly when no key is both. */
  lemma NarrowingIsExact(requested: Option<string>, hint: Option<string>)
    ensures var scope := EffectivePrefix(requested, hint);
            && (scope.Disjoint? <==> forall key :: !(Under(key, requested) && Granted(key, hint)))
            && (scope.From? ==> forall key :: Under(key, requested) && Granted(key, hint) ==> Under(key, scope.prefix))
            && (scope.From? ==> forall key :: Under(key, scope.prefix) ==> Under(key, requested) && Under(key, hint))
  {
    var scope := EffectivePrefix(requested, hint);
    if requested.Some? && hint.Some? {
      forall key | Under(key, requested) && Granted(key, hint)
        ensures scope.From? && Under(key, scope.prefix)
      {
        if key != hint.value {
          Nested(requested.value, hint.value + "/", key);
        }
      }
    }
    if scope.From? {
      var shared := if requested.None? || scope.prefix == hint then hint.GetOr("") else requested.value;
      assert Under(shared, requested) && Granted(shared, hint);
    }
  }

  /** Two prefixes of one key: one is a prefix of the other, and one that is short of
      `hint/` is a prefix of `hint`. */
  lemma Nested(prefix: string, folder: string, key: string)
    requires prefix <= key && folder <= key && folder != ""
    ensures folder <= prefix || prefix <= folder[..|folder| - 1]
  {
  }
}
