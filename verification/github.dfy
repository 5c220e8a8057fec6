/**
 * lib/github.ts: parsing a repository URL, the one-hour in-memory cache of
 * repository statistics, and the contributor count read from the `Link`
 * header of a one-per-page contributors listing. The URL parser's result
 * (`new URL`) and the two HTTP responses are inputs.
 */
module GitHub {
  import opened Wrappers
  import opened Seqs
  import opened Strings
  import opened OrderedMap

  // ---------------------------------------------------------------------------
  // parseGitHubUrl
  // ---------------------------------------------------------------------------

  /** What `new URL(url)` gives: a hostname and a path, or a thrown `TypeError`. */
  datatype ParsedUrl = Unparseable | Url(hostname: string, pathname: string)

  datatype RepoRef = RepoRef(owner: string, repo: string)

  predicate NonEmpty(s: string) { s != "" }

  /** `pathname.split('/').filter(Boolean)`. */
  function PathParts(path: string): (r: seq<string>)
    ensures forall k :: 0 <= k < |r| ==> r[k] != "" && !Contains(r[k], "/")
  {
    var pieces := Split(path, "/");
    var r := Filter(pieces, NonEmpty);
    assert forall k :: 0 <= k < |r| ==> r[k] != "" && !Contains(r[k], "/") by {
      forall k | 0 <= k < |r|
        ensures r[k] != "" && !Contains(r[k], "/")
      {
        assert r[k] in pieces;
        var j :| 0 <= j < |pieces| && pieces[j] == r[k];
      }
    }
    r
  }

  /** `.replace(/\.git$/, '')`: one trailing ".git" removed. */
  function StripGitSuffix(s: string): (r: string)
    ensures EndsWith(s, ".git") ==> r + ".git" == s
    ensures !EndsWith(s, ".git") ==> r == s
  {
    if EndsWith(s, ".git") then s[..|s| - 4] else s
  }

  /** `parseGitHubUrl`: owner and repository from the first two path segments of a github.com URL. */
  function ParseGitHubUrl(url: ParsedUrl): (r: Option<RepoRef>)
    ensures r.Some? <==> url.Url? && url.hostname == "github.com" && |PathParts(url.pathname)| >= 2
    ensures r.Some? ==> r.value.owner == PathParts(url.pathname)[0]
    ensures r.Some? ==> r.value.repo == StripGitSuffix(PathParts(url.pathname)[1])
  {
    match url
    case Unparseable => None
    case Url(host, path) =>
      if host != "github.com" then None
      else
        var parts := PathParts(path);
        if |parts| < 2 then None else Some(RepoRef(parts[0], StripGitSuffix(parts[1])))
  }

  /** A segment without '/' does not contain the one-character string "/". */
  lemma NoSlash(s: string)
    requires '/' !in s
    ensures !Contains(s, "/")
  {
    ContainsChar(s, '/');
  }

  /** The path "/owner/last" splits into exactly its two segments. */
  lemma RepoPathParts(owner: string, last: string)
    requires owner != "" && last != "" && '/' !in owner && '/' !in last
    ensures PathParts("/" + owner + "/" + last) == [owner, last]
  {
    var path := "/" + owner + "/" + last;
    var parts := ["", owner, last];
    assert Split(path, "/") == parts by {
      NoSlash(""); NoSlash(owner); NoSlash(last);
      assert Join(parts, "/") == path by {
        assert parts[1..] == [owner, last];
        assert Join(parts[1..], "/") == owner + "/" + last;
      }
      SplitJoin(parts, "/");
    }
    assert Filter(parts, NonEmpty) == [owner, last] by {
      assert parts[1..] == [owner, last];
      assert parts[1..][1..] == [last];
      assert parts[1..][1..][1..] == [];
    }
  }

  /** Appending ".git" is undone by the suffix strip. */
  lemma StripAppendedGit(repo: string)
    ensures StripGitSuffix(repo + ".git") == repo
  {
    var s := repo + ".git";
    assert s[|s| - 4..] == ".git";
    assert s[..|s| - 4] == repo;
  }

  /**
   * The canonical repository URL parses back to its owner and repository,
   * with or without a ".git" suffix.
   */
  lemma ParseRepoUrl(owner: string, repo: string, git: bool)
    requires owner != "" && repo != "" && '/' !in owner && '/' !in repo
    requires !EndsWith(repo, ".git")
    ensures var path := "/" + owner + "/" + repo + (if git then ".git" else "");
      ParseGitHubUrl(Url("github.com", path)) == Some(RepoRef(owner, repo))
  {
    var last := repo + (if git then ".git" else "");
    var path := "/" + owner + "/" + repo + (if git then ".git" else "");
    assert '/' !in last;
    RepoPathParts(owner, last);
    assert path == "/" + owner + "/" + last;
    if git {
      StripAppendedGit(repo);
    } else {
      assert last == repo;
    }
    assert StripGitSuffix(last) == repo;
    assert PathParts(path) == [owner, last];
  }

  // ---------------------------------------------------------------------------
  // Contributor count from the Link header
  // ---------------------------------------------------------------------------

  /** The end of the run of ASCII digits starting at `i` (`\d+` is greedy). */
  function DigitsEnd(s: string, i: nat): (j: nat)
    requires i <= |s|
    decreases |s| - i
    ensures i <= j <= |s|
    ensures forall k :: i <= k < j ==> IsDigit(s[k])
    ensures j < |s| ==> !IsDigit(s[j])
  {
    if i < |s| && IsDigit(s[i]) then DigitsEnd(s, i + 1) else i
  }

  const PageKey: string := "page="
  const LastRel: string := ">; rel=\"last\""

  /** `/page=(\d+)>; rel="last"/` matches at `p`. */
  predicate LastPageAt(s: string, p: nat)
  {
    p + |PageKey| <= |s| && StartsAt(s, p, PageKey) &&
    var e := DigitsEnd(s, p + |PageKey|);
    e > p + |PageKey| && StartsAt(s, e, LastRel)
  }

  function LastPageAtFn(s: string): nat -> bool
  {
    (p: nat) => LastPageAt(s, p)
  }

  /** The page number captured by the leftmost match. */
  function LastPage(link: string): (r: Option<nat>)
    ensures r.None? <==> forall p :: 0 <= p < |link| ==> !LastPageAt(link, p)
    ensures r.Some? ==>
      (exists p :: 0 <= p < |link| && LastPageAt(link, p) &&
        (forall q :: 0 <= q < p ==> !LastPageAt(link, q)) &&
        r.value == ParseDigits(link[p + |PageKey|..DigitsEnd(link, p + |PageKey|)]))
  {
    match FirstIndex(|link|, LastPageAtFn(link), 0)
    case None =>
      assert forall p :: 0 <= p < |link| ==> !LastPageAt(link, p) by {
        forall p | 0 <= p < |link|
          ensures !LastPageAt(link, p)
        {
          assert !LastPageAtFn(link)(p);
        }
      }
      None
    case Some(p) =>
      assert LastPageAt(link, p);
      assert forall q :: 0 <= q < p ==> !LastPageAt(link, q) by {
        forall q | 0 <= q < p
          ensures !LastPageAt(link, q)
        {
          assert !LastPageAtFn(link)(q);
        }
      }
      Some(ParseDigits(link[p + |PageKey|..DigitsEnd(link, p + |PageKey|)]))
  }

  /**
   * A header whose `rel="last"` entry is the first one in it reports that
   * entry's page number, whatever comes before it. GitHub's headers have the
   * form `<…&page=2>; rel="next", <…&page=N>; rel="last"`: the text before
   * the last "page=" holds no `>; rel="last"`.
   */
  lemma LastPageReadsNumber(pre: string, n: nat, rest: string)
    requires !Contains(pre, LastRel)
    ensures LastPage(pre + PageKey + NatToString(n) + LastRel + rest) == Some(n)
  {
    var digits := NatToString(n);
    var s := pre + PageKey + digits + LastRel + rest;
    var m := |pre|;
    var e := m + |PageKey| + |digits|;
    assert s[m..m + |PageKey|] == PageKey;
    assert forall k :: m + |PageKey| <= k < e ==> s[k] == digits[k - m - |PageKey|];
    assert s[e..e + |LastRel|] == LastRel;
    assert s[e] == '>';
    DigitsRun(s, m + |PageKey|, e);
    assert LastPageAt(s, m);
    assert s[m + |PageKey|..e] == digits;
    ParseNatToString(n);
    forall q | 0 <= q < m
      ensures !LastPageAt(s, q)
    {
      NoMatchBefore(pre, s, q);
    }
    var r := LastPage(s);
    assert r.Some?;
    var p :| 0 <= p < |s| && LastPageAt(s, p) &&
      (forall q :: 0 <= q < p ==> !LastPageAt(s, q)) &&
      r.value == ParseDigits(s[p + |PageKey|..DigitsEnd(s, p + |PageKey|)]);
    assert p == m;
  }

  /**
   * A match cannot start inside `pre` when `pre` holds no `>; rel="last"` and
   * "page=" follows it: the 'p' at the end of `pre` is neither a digit nor a
   * character of `>; rel="last"`, and "page=" does not overlap itself.
   */
  lemma NoMatchBefore(pre: string, s: string, q: nat)
    requires !Contains(pre, LastRel) && q < |pre|
    requires |pre| + |PageKey| <= |s| && s[..|pre| + |PageKey|] == pre + PageKey
    ensures !LastPageAt(s, q)
  {
    var m := |pre|;
    assert s[m] == 'p' by {
      assert (pre + PageKey)[m] == 'p';
    }
    assert s[..m] == pre by {
      assert s[..m] == s[..m + |PageKey|][..m];
    }
    var d := q + |PageKey|;
    if m < d {
      assert s[q..q + |PageKey|][m - q] == s[m];
      assert PageKey[m - q] != 'p';
      assert !StartsAt(s, q, PageKey);
    } else {
      DigitsStop(s, d, m);
      var e := DigitsEnd(s, d);
      if m < e + |LastRel| {
        assert e + |LastRel| <= |s| ==> s[e..e + |LastRel|][m - e] == s[m];
        assert LastRel[m - e] != 'p';
        assert !StartsAt(s, e, LastRel);
      } else if StartsAt(s, e, LastRel) {
        RelInside(pre, s, e);
      }
    }
  }

  /** A run of digits from `d` stops at or before a non-digit at `m`. */
  lemma {:induction false} DigitsStop(s: string, d: nat, m: nat)
    requires d <= m < |s| && !IsDigit(s[m])
    decreases m - d
    ensures DigitsEnd(s, d) <= m
  {
    if d < m && IsDigit(s[d]) {
      DigitsStop(s, d + 1, m);
    }
  }

  /** An occurrence of `>; rel="last"` within the first `|pre|` characters is one in `pre`. */
  lemma RelInside(pre: string, s: string, e: nat)
    requires |pre| <= |s| && s[..|pre|] == pre
    requires e + |LastRel| <= |pre| && StartsAt(s, e, LastRel)
    ensures Contains(pre, LastRel)
  {
    assert pre[e..e + |LastRel|] == s[e..e + |LastRel|];
    assert StartsAt(pre, e, LastRel);
    ContainsIff(pre, LastRel);
  }

  lemma {:induction false} DigitsRun(s: string, i: nat, e: nat)
    requires i <= e < |s| && !IsDigit(s[e])
    requires forall k :: i <= k < e ==> IsDigit(s[k])
    decreases e - i
    ensures DigitsEnd(s, i) == e
  {
    if i < e {
      DigitsRun(s, i + 1, e);
    }
  }

  /** The contributors response: a failure (not OK, or thrown), or its `Link` header and the array length of its body. */
  datatype ContributorsResponse = ContributorsFailed | ContributorsOk(link: Option<string>, arrayLength: Option<nat>)

  /** The contributor count: the last page number when the header names one, else the body's length, else 0. */
  function ContributorCount(resp: ContributorsResponse): (r: nat)
    ensures resp.ContributorsFailed? ==> r == 0
    ensures resp.ContributorsOk? && Truthy(resp.link) && LastPage(resp.link.value).Some? ==> r == LastPage(resp.link.value).value
    ensures resp.ContributorsOk? && !(Truthy(resp.link) && LastPage(resp.link.value).Some?) ==> r == resp.arrayLength.GetOr(0)
  {
    match resp
    case ContributorsFailed => 0
    case ContributorsOk(link, len) =>
      if Truthy(link) then
        match LastPage(link.value)
        case Some(n) => n
        case None => len.GetOr(0)
      else len.GetOr(0)
  }

  /** A successful response with a GitHub-style `Link` header counts the last page number, whatever the body's length. */
  lemma ContributorCountFromHeader(pre: string, n: nat, rest: string, len: Option<nat>)
    requires !Contains(pre, LastRel)
    ensures ContributorCount(ContributorsOk(Some(pre + PageKey + NatToString(n) + LastRel + rest), len)) == n
  {
    LastPageReadsNumber(pre, n, rest);
  }

  // ---------------------------------------------------------------------------
  // The statistics cache
  // ---------------------------------------------------------------------------

  const CacheTtlMs: int := 3600000

  datatype RepoStats = RepoStats(stars: int, forks: int, lastUpdated: string, contributors: nat, language: Option<string>, isArchived: bool)

  datatype CacheEntry = CacheEntry(data: RepoStats, timestamp: int)

  /** The repository response: its fields, a non-OK status, or a thrown error. */
  datatype RepoResponse =
    | RepoOk(stars: int, forks: int, updatedAt: string, language: Option<string>, archived: bool)
    | RepoNotOk(status: int)
    | RepoThrew

  datatype StatsResult = StatsResult(stats: Option<RepoStats>, cache: OMap<string, CacheEntry>)

  function CacheKey(owner: string, repo: string): string
  {
    owner + "/" + repo
  }

  /** The entry for `key` is younger than the time to live. */
  predicate FreshAt(cache: OMap<string, CacheEntry>, key: string, now: int)
  {
    var e := Get(cache, key);
    e.Some? && now - e.value.timestamp < CacheTtlMs
  }

  /** The statistics built from a successful repository response. */
  function StatsFrom(resp: RepoResponse, contributors: ContributorsResponse): (r: RepoStats)
    requires resp.RepoOk?
    ensures r.stars == resp.stars && r.forks == resp.forks && r.lastUpdated == resp.updatedAt
    ensures r.contributors == ContributorCount(contributors)
  {
    RepoStats(resp.stars, resp.forks, resp.updatedAt, ContributorCount(contributors), resp.language, resp.archived)
  }

  /** `fetchGitHubRepoStats`, with the clock, the token and both responses as inputs. */
  function FetchRepoStats(cache: OMap<string, CacheEntry>, now: int, owner: string, repo: string, token: Option<string>,
                          repoResp: RepoResponse, contributors: ContributorsResponse): (r: StatsResult)
    ensures FreshAt(cache, CacheKey(owner, repo), now) ==>
      r == StatsResult(Some(Get(cache, CacheKey(owner, repo)).value.data), cache)
    ensures !FreshAt(cache, CacheKey(owner, repo), now) ==>
      (r.stats.Some? <==> Truthy(token) && repoResp.RepoOk?)
    ensures !FreshAt(cache, CacheKey(owner, repo), now) && r.stats.None? ==> r.cache == cache
    ensures !FreshAt(cache, CacheKey(owner, repo), now) && r.stats.Some? ==>
      r.stats.value == StatsFrom(repoResp, contributors) &&
      r.cache == Put(cache, CacheKey(owner, repo), CacheEntry(r.stats.value, now))
  {
    var key := CacheKey(owner, repo);
    if FreshAt(cache, key, now) then StatsResult(Some(Get(cache, key).value.data), cache)
    else if !Truthy(token) then StatsResult(None, cache)
    else if !repoResp.RepoOk? then StatsResult(None, cache)
    else
      var stats := StatsFrom(repoResp, contributors);
      StatsResult(Some(stats), Put(cache, key, CacheEntry(stats, now)))
  }

  /** A successful fetch is served from the cache, untouched by the network, for the next hour. */
  lemma ServedFromCacheWithinHour(cache: OMap<string, CacheEntry>, now: int, owner: string, repo: string, token: Option<string>,
                                  repoResp: RepoResponse, contributors: ContributorsResponse,
                                  later: int, token2: Option<string>, repoResp2: RepoResponse, contributors2: ContributorsResponse)
    requires WellFormed(cache)
    requires !FreshAt(cache, CacheKey(owner, repo), now)
    requires FetchRepoStats(cache, now, owner, repo, token, repoResp, contributors).stats.Some?
    requires later - now < CacheTtlMs
    ensures var first := FetchRepoStats(cache, now, owner, repo, token, repoResp, contributors);
      FetchRepoStats(first.cache, later, owner, repo, token2, repoResp2, contributors2) == StatsResult(first.stats, first.cache)
  {
    var first := FetchRepoStats(cache, now, owner, repo, token, repoResp, contributors);
    PutGet(cache, CacheKey(owner, repo), CacheEntry(first.stats.value, now), CacheKey(owner, repo));
  }

  /** `fetchGitHubRepoStatsByUrl`: an invalid URL gives nothing and leaves the cache alone. */
  function FetchRepoStatsByUrl(cache: OMap<string, CacheEntry>, now: int, url: ParsedUrl, token: Option<string>,
                               repoResp: RepoResponse, contributors: ContributorsResponse): (r: StatsResult)
    ensures ParseGitHubUrl(url).None? ==> r == StatsResult(None, cache)
    ensures ParseGitHubUrl(url).Some? ==>
      r == FetchRepoStats(cache, now, ParseGitHubUrl(url).value.owner, ParseGitHubUrl(url).value.repo, token, repoResp, contributors)
  {
    match ParseGitHubUrl(url)
    case None => StatsResult(None, cache)
    case Some(ref) => FetchRepoStats(cache, now, ref.owner, ref.repo, token, repoResp, contributors)
  }

  /** `clearCache`. */
  function ClearCache(): (r: OMap<string, CacheEntry>)
    ensures Size(r) == 0 && forall k :: Get(r, k).None?
  {
    []
  }

  /** `getCacheStats`: the number of entries and their keys in insertion order. */
  function GetCacheStats(cache: OMap<string, CacheEntry>): (r: (nat, seq<string>))
    ensures r.0 == |r.1| && r.1 == Keys(cache)
  {
    (Size(cache), Keys(cache))
  }
}
