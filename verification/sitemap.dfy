/**
 * app/sitemap.xml/route.ts: one sitemap entry per static route and per
 * project, with the base URL from the environment, the date part of the
 * current ISO time as `lastmod`, and a change frequency and priority
 * chosen from the route's text. The XML rendering is left out; the entries
 * are the model's output.
 */
module Sitemap {
  import opened Wrappers
  import opened Strings
  import opened Types

  const DefaultBaseUrl: string := "http://localhost:3000"
  const ProjectPrefix: string := "/projects/"

  /** The site's fixed pages, the home page first. */
  const StaticRoutes: seq<string> := ["", "/news", "/jobs", "/events", "/projects", "/contribute", "/about"]

  datatype UrlEntry = UrlEntry(loc: string, lastmod: string, changefreq: string, priority: string)

  /** `NEXT_PUBLIC_BASE_URL || 'http://localhost:3000'`. */
  function BaseUrl(env: Option<string>): (r: string)
    ensures Truthy(env) ==> r == env.value
    ensures !Truthy(env) ==> r == DefaultBaseUrl
  {
    OrElse(env, DefaultBaseUrl)
  }

  /** The route of each project page, in data order. */
  function ProjectRoutes(projects: seq<ProjectItem>): (r: seq<string>)
    ensures |r| == |projects|
    ensures forall i :: 0 <= i < |projects| ==> r[i] == ProjectPrefix + projects[i].slug
  {
    seq(|projects|, i requires 0 <= i < |projects| => ProjectPrefix + projects[i].slug)
  }

  /** Only the home page changes weekly. */
  function ChangeFreq(route: string): string
  {
    if route == "" then "weekly" else "monthly"
  }

  /** The home page first, project pages lowest, everything else between. */
  function Priority(route: string): string
  {
    if route == "" then "1.0" else if Contains(route, ProjectPrefix) then "0.7" else "0.8"
  }

  /** The date part of an ISO time: the text before the first "T". */
  function DatePart(iso: string): (r: string)
    ensures !Contains(r, "T")
    ensures IndexOfFrom(iso, "T", 0).None? ==> r == iso
    ensures IndexOfFrom(iso, "T", 0).Some? ==> r == iso[..IndexOfFrom(iso, "T", 0).value]
  {
    Split(iso, "T")[0]
  }

  function Entry(baseUrl: string, lastmod: string, route: string): UrlEntry
  {
    UrlEntry(baseUrl + route, lastmod, ChangeFreq(route), Priority(route))
  }

  /** The entries of the sitemap, static routes first. */
  function SitemapEntries(projects: seq<ProjectItem>, env: Option<string>, nowIso: string): (r: seq<UrlEntry>)
    ensures |r| == |StaticRoutes| + |projects|
    ensures forall i :: 0 <= i < |r| ==> r[i].lastmod == DatePart(nowIso)
    ensures forall i :: 0 <= i < |StaticRoutes| ==> r[i].loc == BaseUrl(env) + StaticRoutes[i]
    ensures forall i :: 0 <= i < |projects| ==>
      r[|StaticRoutes| + i].loc == BaseUrl(env) + ProjectPrefix + projects[i].slug
  {
    var routes := StaticRoutes + ProjectRoutes(projects);
    var base := BaseUrl(env);
    var lastmod := DatePart(nowIso);
    var r := seq(|routes|, i requires 0 <= i < |routes| => Entry(base, lastmod, routes[i]));
    assert forall i :: 0 <= i < |projects| ==> r[|StaticRoutes| + i].loc == base + ProjectPrefix + projects[i].slug by {
      forall i | 0 <= i < |projects|
        ensures r[|StaticRoutes| + i].loc == base + ProjectPrefix + projects[i].slug
      {
        assert routes[|StaticRoutes| + i] == ProjectPrefix + projects[i].slug;
      }
    }
    r
  }

  /** A text shorter than a pattern cannot contain it. */
  lemma ShortLacks(s: string, pat: string)
    requires |s| < |pat|
    ensures !Contains(s, pat)
  {
    ContainsIff(s, pat);
  }

  /** The home page is weekly at 1.0; every other static page is monthly at 0.8, "/projects" included. */
  lemma StaticPriorities(projects: seq<ProjectItem>, env: Option<string>, nowIso: string, i: nat)
    requires i < |StaticRoutes|
    ensures var e := SitemapEntries(projects, env, nowIso)[i];
      (i == 0 ==> e.changefreq == "weekly" && e.priority == "1.0") &&
      (i > 0 ==> e.changefreq == "monthly" && e.priority == "0.8")
  {
    var routes := StaticRoutes + ProjectRoutes(projects);
    assert routes[i] == StaticRoutes[i];
    if StaticRoutes[i] == "/contribute" {
      ContributeLacks();
    } else {
      assert |StaticRoutes[i]| < |ProjectPrefix|;
      ShortLacks(StaticRoutes[i], ProjectPrefix);
    }
  }

  /** The one static route as long as the project prefix does not contain it either. */
  lemma ContributeLacks()
    ensures !Contains("/contribute", ProjectPrefix)
  {
    var s := "/contribute";
    assert s[0..10][1] != ProjectPrefix[1];
    assert s[1..11][0] != ProjectPrefix[0];
    assert IndexOfFrom(s, ProjectPrefix, 2).None?;
    assert IndexOfFrom(s, ProjectPrefix, 1).None?;
  }

  /** Every project page is monthly at 0.7, whatever its slug. */
  lemma ProjectPriorities(projects: seq<ProjectItem>, env: Option<string>, nowIso: string, i: nat)
    requires i < |projects|
    ensures var e := SitemapEntries(projects, env, nowIso)[|StaticRoutes| + i];
      e.changefreq == "monthly" && e.priority == "0.7"
  {
    var routes := StaticRoutes + ProjectRoutes(projects);
    var route := ProjectPrefix + projects[i].slug;
    assert routes[|StaticRoutes| + i] == route;
    assert StartsAt(route, 0, ProjectPrefix);
    ContainsIff(route, ProjectPrefix);
  }
}
