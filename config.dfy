/** The database URI the application is configured with: the `DATABASE_URL`
    environment value, with a leading `postgres://` scheme (which some hosting
    providers hand out) rewritten to `postgresql://`, the spelling the ORM
    accepts. */
module Config {
  import opened Store

  const LegacyScheme: string := "postgres://"
  const Scheme: string := "postgresql://"

  /** Python's `s.startswith(prefix)`. */
  predicate StartsWith(s: string, prefix: string) {
    |prefix| <= |s| && s[..|prefix|] == prefix
  }

  /** `pat` occurs in `s` starting at index `k`. */
  predicate OccursAt(s: string, pat: string, k: int) {
    0 <= k && k + |pat| <= |s| && s[k..k + |pat|] == pat
  }

  /** Python's `s.find(pat)`: the first index where `pat` occurs. */
  function IndexOf(s: string, pat: string): (r: Option<nat>)
    ensures r.Some? ==> OccursAt(s, pat, r.value) && forall k :: 0 <= k < r.value ==> !OccursAt(s, pat, k)
    ensures r.None? ==> forall k :: !OccursAt(s, pat, k)
    decreases |s|
  {
    if |pat| > |s| then None
    else if s[..|pat|] == pat then Some(0)
    else
      match IndexOf(s[1..], pat)
      case None =>
        assert forall k :: 1 <= k ==> (OccursAt(s, pat, k) <==> OccursAt(s[1..], pat, k - 1));
        None
      case Some(k) =>
        assert forall j :: 1 <= j ==> (OccursAt(s, pat, j) <==> OccursAt(s[1..], pat, j - 1));
        Some(k + 1)
  }

  /** Python's `s.replace(target, replacement, 1)`: the first occurrence of
      `target` is replaced. */
  function ReplaceFirst(s: string, target: string, replacement: string): (r: string)
    ensures IndexOf(s, target).None? ==> r == s
    ensures OccursAt(s, target, 0) ==> r == replacement + s[|target|..]
  {
    match IndexOf(s, target)
    case None => s
    case Some(k) => s[..k] + replacement + s[k + |target|..]
  }

  /** `SQLALCHEMY_DATABASE_URI` for the environment value `env` of
      `DATABASE_URL` (None when it is not set). */
  function DatabaseUri(env: Option<string>): (r: string)
    ensures env.None? ==> r == ""
    ensures var url := env.GetOr("");
            if StartsWith(url, LegacyScheme) then r == Scheme + url[|LegacyScheme|..] else r == url
  {
    var url := env.GetOr("");
    if StartsWith(url, LegacyScheme) then
      ReplaceFirst(url, LegacyScheme, Scheme)
    else url
  }

  /** The rewritten scheme is not the legacy one. */
  lemma SchemeIsNotLegacy(rest: string)
    ensures !StartsWith(Scheme + rest, LegacyScheme)
  {
    assert (Scheme + rest)[8] == 'q';
    assert LegacyScheme[8] == ':';
  }

  /** Configuring with an already configured URI changes nothing. */
  lemma {:induction false} DatabaseUriIdempotent(env: Option<string>)
    ensures DatabaseUri(Some(DatabaseUri(env))) == DatabaseUri(env)
  {
    var url := env.GetOr("");
    if StartsWith(url, LegacyScheme) {
      SchemeIsNotLegacy(url[|LegacyScheme|..]);
    }
  }
}
