/**
 * The database connection string of app.py: a `DATABASE_URL` that starts with the
 * legacy `postgres://` scheme is rewritten to `postgresql://`, and a missing or
 * empty value falls back to the local SQLite file.
 */
module DatabaseUrl {
  import opened Wrappers

  const PostgresScheme: string := "postgres://"
  const PostgresqlScheme: string := "postgresql://"
  const DefaultUrl: string := "sqlite:///events.db"

  /** `s.startswith(prefix)`. */
  predicate StartsWith(s: string, prefix: string)
  {
    |prefix| <= |s| && s[..|prefix|] == prefix
  }

  /**
   * `s.replace(target, replacement, 1)`. Its contract covers the one case app.py
   * reaches: `s` starts with `target`, and that prefix becomes `replacement`.
   */
  function ReplaceFirst(s: string, target: string, replacement: string): (r: string)
    ensures StartsWith(s, target) ==> r == replacement + s[|target|..]
    decreases |s|
  {
    if |s| < |target| then s
    else if s[..|target|] == target then replacement + s[|target|..]
    else [s[0]] + ReplaceFirst(s[1..], target, replacement)
  }

  /**
   * The value given to `SQLALCHEMY_DATABASE_URI` for the environment value `env`
   * (`None` when `DATABASE_URL` is not set).
   */
  function ConfiguredUrl(env: Option<string>): (r: string)
    ensures env.None? || env == Some("") ==> r == DefaultUrl
    ensures env.Some? && StartsWith(env.value, PostgresScheme) ==>
              r == PostgresqlScheme + env.value[|PostgresScheme|..]
    ensures env.Some? && env.value != "" && !StartsWith(env.value, PostgresScheme) ==> r == env.value
    ensures r != "" && !StartsWith(r, PostgresScheme)
  {
    if env.None? || env.value == "" then
      // `database_url or 'sqlite:///events.db'`
      assert DefaultUrl[0] != PostgresScheme[0];
      DefaultUrl
    else if StartsWith(env.value, PostgresScheme) then
      RewrittenIsNotLegacy(env.value[|PostgresScheme|..]);
      ReplaceFirst(env.value, PostgresScheme, PostgresqlScheme)
    else
      env.value
  }

  /** A configured URL never carries the legacy scheme: "postgresql://" differs at offset 8. */
  lemma RewrittenIsNotLegacy(rest: string)
    ensures !StartsWith(PostgresqlScheme + rest, PostgresScheme)
  {
    assert (PostgresqlScheme + rest)[8] == 'q' != PostgresScheme[8];
  }

  /** Configuring an already configured URL changes nothing. */
  lemma {:induction false} ConfiguredUrlIdempotent(env: Option<string>)
    ensures ConfiguredUrl(Some(ConfiguredUrl(env))) == ConfiguredUrl(env)
  {
  }
}
