/** lib/mongodb.ts: `getDatabaseName`, which picks the database to use from
    the configuration. The client connection and its cache are not modelled.
    `new URL(uri)` is a foreign parser: it is a parameter that either fails
    (`None`) or yields the URL's pathname. */
module MongoDb {
  import opened Wrappers
  import opened Text

  datatype ConfigError = DatabaseNameNotSpecified

  /** `\/([^?]+)` can match starting at index `i`: a slash followed by at least
      one character other than `?`. */
  predicate SlashRunAt(uri: string, i: int) {
    0 <= i && i + 1 < |uri| && uri[i] == '/' && uri[i + 1] != '?'
  }

  /** `i` is where the leftmost match at or after `from` starts. */
  predicate FirstSlashRun(uri: string, from: nat, i: nat) {
    from <= i && SlashRunAt(uri, i) && forall k :: from <= k < i ==> !SlashRunAt(uri, k)
  }

  /** The greedy `[^?]+` from index `j`: the longest run free of `?`. */
  function QueryFreeRun(s: string, j: nat): (run: string)
    requires j <= |s|
    ensures j + |run| <= |s| && s[j..j + |run|] == run
    ensures '?' !in run
    ensures j + |run| == |s| || s[j + |run|] == '?'
    decreases |s| - j
  {
    if j == |s| || s[j] == '?' then ""
    else
      var rest := QueryFreeRun(s, j + 1);
      assert s[j..j + 1 + |rest|] == [s[j]] + s[j + 1..j + 1 + |rest|];
      [s[j]] + rest
  }

  /** `uri.match(/\/([^?]+)/)?.[1]`, searching from index `from`: the capture of
      the leftmost match, which starts at the first slash that is followed by
      something other than `?`. */
  function PathFallback(uri: string, from: nat): (name: Option<string>)
    requires from <= |uri|
    ensures name.None? <==> forall i :: from <= i ==> !SlashRunAt(uri, i)
    ensures name.Some? ==> name.value != "" && '?' !in name.value
    decreases |uri| - from
  {
    if from == |uri| then None
    else if SlashRunAt(uri, from) then Some(QueryFreeRun(uri, from + 1))
    else PathFallback(uri, from + 1)
  }

  /** `url.pathname.substring(1)`: the pathname without its first character. */
  function DropFirst(pathname: string): string {
    if pathname == "" then "" else pathname[1..]
  }

  /** `getDatabaseName`: a non-empty `MONGODB_DB_NAME` wins; otherwise the
      database is named by the URI's path when the URI parses, and by the
      regex fallback only when it does not; anything else is an error. */
  function GetDatabaseName(dbNameEnv: Option<string>, uri: string, parseUrl: string -> Option<string>)
    : (r: Result<string, ConfigError>)
    ensures r.Success? ==> r.value != ""
    ensures Truthy(dbNameEnv) ==> r == Success(dbNameEnv.value)
    ensures !Truthy(dbNameEnv) && parseUrl(uri).Some? ==>
      var name := DropFirst(parseUrl(uri).value);
      r == if name != "" && name != "/" then Success(name) else Failure(DatabaseNameNotSpecified)
    ensures !Truthy(dbNameEnv) && parseUrl(uri).None? ==>
      (r.Success? <==> exists i :: SlashRunAt(uri, i))
    ensures !Truthy(dbNameEnv) && parseUrl(uri).None? && r.Success? ==> '?' !in r.value
    ensures !Truthy(dbNameEnv) && parseUrl(uri).None? ==>
      forall i: nat :: FirstSlashRun(uri, 0, i) ==> r == Success(QueryFreeRun(uri, i + 1))
  {
    if Truthy(dbNameEnv) then Success(dbNameEnv.value)
    else match parseUrl(uri)
      case Some(pathname) =>
        var dbName := DropFirst(pathname);
        if dbName != "" && dbName != "/" then Success(dbName)
        else Failure(DatabaseNameNotSpecified)
      case None =>
        assert forall i: nat :: FirstSlashRun(uri, 0, i) ==> PathFallback(uri, 0) == Some(QueryFreeRun(uri, i + 1)) by {
          forall i: nat | FirstSlashRun(uri, 0, i) ensures PathFallback(uri, 0) == Some(QueryFreeRun(uri, i + 1)) {
            PathFallbackFinds(uri, 0, i);
          }
        }
        match PathFallback(uri, 0)
        case Some(name) => Success(name)
        case None => Failure(DatabaseNameNotSpecified)
  }

  /** Once the URI parses, only its pathname matters: the fallback is not
      tried, even when the path names no database. */
  lemma {:induction false} ParsedUriIgnoresFallback(
    uri1: string, parse1: string -> Option<string>,
    uri2: string, parse2: string -> Option<string>)
    requires parse1(uri1).Some? && parse1(uri1) == parse2(uri2)
    ensures GetDatabaseName(None, uri1, parse1) == GetDatabaseName(None, uri2, parse2)
  {
  }

  /** A pathname of `//` gives `/`, which is refused: the result is an error. */
  lemma SlashOnlyPathIsRefused(uri: string, parseUrl: string -> Option<string>)
    requires parseUrl(uri) == Some("//")
    ensures GetDatabaseName(None, uri, parseUrl) == Failure(DatabaseNameNotSpecified)
  {
    assert DropFirst("//") == "/";
  }

  /** A run that meets a `?` ends there. */
  lemma {:induction false} QueryFreeRunStops(s: string, j: nat, n: nat)
    requires j + n < |s| && s[j + n] == '?'
    requires forall k :: j <= k < j + n ==> s[k] != '?'
    ensures QueryFreeRun(s, j) == s[j..j + n]
    decreases n
  {
    if n > 0 {
      QueryFreeRunStops(s, j + 1, n - 1);
      assert s[j..j + n] == [s[j]] + s[j + 1..j + n];
    }
  }

  /** The fallback's search stops at the first slash that starts a match. */
  lemma {:induction false} PathFallbackFinds(uri: string, from: nat, i: nat)
    requires from <= |uri| && FirstSlashRun(uri, from, i)
    ensures PathFallback(uri, from) == Some(QueryFreeRun(uri, i + 1))
    decreases i - from
  {
    if from < i {
      PathFallbackFinds(uri, from + 1, i);
    }
  }

  /** The name the fallback gives when the first slash is at `h` and a `?`
      closes the `n` characters after it. */
  lemma {:induction false} FallbackBetweenSlashAndQuery(uri: string, h: nat, n: nat)
    requires h + 1 + n < |uri| && 0 < n
    requires uri[h] == '/' && uri[h + 1 + n] == '?'
    requires forall k :: 0 <= k < h ==> uri[k] != '/'
    requires forall k :: h + 1 <= k < h + 1 + n ==> uri[k] != '?'
    ensures PathFallback(uri, 0) == Some(uri[h + 1..h + 1 + n])
  {
    assert FirstSlashRun(uri, 0, h);
    PathFallbackFinds(uri, 0, h);
    QueryFreeRunStops(uri, h + 1, n);
  }

  /** For an unparsable URI the fallback returns the `?`-free text after the
      first slash that starts a match: `host/db?x` names `db`. */
  lemma {:induction false} FallbackNamesPath(host: string, db: string, query: string)
    requires '/' !in host && db != "" && '?' !in db
    ensures PathFallback(host + "/" + db + "?" + query, 0) == Some(db)
  {
    var uri := host + "/" + db + "?" + query;
    var h := |host|;
    assert uri[h] == '/' && uri[h + 1 + |db|] == '?';
    forall k | 0 <= k < h ensures uri[k] != '/' {
      assert uri[k] == host[k];
    }
    forall k | h + 1 <= k < h + 1 + |db| ensures uri[k] != '?' {
      assert uri[k] == db[k - h - 1];
    }
    FallbackBetweenSlashAndQuery(uri, h, |db|);
    assert uri[h + 1..h + 1 + |db|] == db;
  }
}
