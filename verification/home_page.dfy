/**
 * app/page.tsx: the three rails of the home page. Each is the first three
 * entries of a list the dedicated page also builds: the newest news, the
 * earliest upcoming events, and the projects by title.
 */
module HomePage {
  import opened Wrappers
  import opened Seqs
  import opened Sorting
  import opened Types
  import opened SearchParams
  import opened Paginate
  import opened NewsPage
  import opened EventsPage
  import opened ProjectsPage

  const RailSize: nat := 3

  /** The three newest news items. */
  function NewsRail(news: seq<NewsItem>, ts: string -> int): (r: seq<NewsItem>)
    ensures |r| <= RailSize && (|news| >= RailSize ==> |r| == RailSize)
    ensures forall i, j :: 0 <= i < j < |r| ==> ts(r[j].publishedAt) <= ts(r[i].publishedAt)
    ensures forall i :: 0 <= i < |r| ==> r[i] in news
  {
    var sorted := SortedNews(news, ts);
    assert |sorted| == |news| by {
      assert |multiset(sorted)| == |multiset(news)|;
    }
    assert forall i :: 0 <= i < |sorted| ==> sorted[i] in news by {
      forall i | 0 <= i < |sorted|
        ensures sorted[i] in news
      {
        assert sorted[i] in multiset(news);
      }
    }
    Take(sorted, RailSize)
  }

  /** The three earliest upcoming events, or all of them when there are fewer. */
  function EventsRail(data: EventsData, ts: string -> int, now: int): (r: seq<EventItem>)
    ensures var n := |Filter(EventsOf(data), UpcomingFn(ts, now))|;
      |r| == if RailSize < n then RailSize else n
    ensures forall i :: 0 <= i < |r| ==> r[i] in EventsOf(data) && ts(r[i].startsAt) > now
    ensures forall i, j :: 0 <= i < j < |r| ==> ts(r[i].startsAt) <= ts(r[j].startsAt)
    ensures forall e :: e in EventsOf(data) && ts(e.startsAt) > now ==>
      e in r || (|r| == RailSize && forall i :: 0 <= i < |r| ==> ts(r[i].startsAt) <= ts(e.startsAt))
  {
    UpcomingAllComplete(EventsOf(data), ts, now, RailSize);
    Upcoming(EventsOf(data), ts, now, RailSize)
  }

  /** The first three projects by title. */
  function ProjectsRail(projects: seq<ProjectItem>, localeLe: (string, string) -> bool): (r: seq<ProjectItem>)
    requires TotalPreorder(localeLe)
    ensures |r| <= RailSize && (|projects| >= RailSize ==> |r| == RailSize)
    ensures forall i, j :: 0 <= i < j < |r| ==> localeLe(r[i].title, r[j].title)
    ensures forall i :: 0 <= i < |r| ==> r[i] in projects
  {
    OnTotal(localeLe, Title);
    var sorted := Sort(projects, On(localeLe, Title));
    assert forall i, j :: 0 <= i < j < |sorted| ==> localeLe(sorted[i].title, sorted[j].title) by {
      forall i, j | 0 <= i < j < |sorted|
        ensures localeLe(sorted[i].title, sorted[j].title)
      {
        assert On(localeLe, Title)(sorted[i], sorted[j]);
      }
    }
    assert forall i :: 0 <= i < |sorted| ==> sorted[i] in projects by {
      forall i | 0 <= i < |sorted|
        ensures sorted[i] in projects
      {
        assert sorted[i] in multiset(projects);
      }
    }
    Take(sorted, RailSize)
  }

  /** The events rail is the head of the events page's list. */
  lemma EventsRailLeadsEventsPage(data: EventsData, ts: string -> int, now: int)
    ensures EventsRail(data, ts, now) == Take(EventsPageList(data, ts, now), RailSize)
  {
    UpcomingPrefix(EventsOf(data), ts, now, RailSize, EventsPageLimit);
  }

  /** The news rail is the head of the first page of the news page with no query. */
  lemma NewsRailLeadsNewsPage(news: seq<NewsItem>, ts: string -> int)
    ensures var page := RenderNews(news, [], ts).shown;
      page.page == Some(1) && NewsRail(news, ts) == Take(page.slice, RailSize)
  {
    var sorted := SortedNews(news, ts);
    assert ReadPage([]) == Some(1);
    assert FilteredNews(sorted, Get([], "tag")) == sorted;
    var pg := PaginateArray(sorted, 1, NewsPerPage);
    assert pg.page == 1 by {
      if pg.totalPages == 0 {
        assert pg.page == 1;
      }
    }
    var slice := pg.slice;
    assert slice == Take(sorted, NewsPerPage) by {
      if NewsPerPage <= |sorted| {
        assert |slice| == NewsPerPage;
      } else {
        assert |slice| == |sorted|;
      }
    }
  }

  /** The projects rail is the head of the unfiltered projects list. */
  lemma ProjectsRailLeadsProjectsPage(projects: seq<ProjectItem>, localeLe: (string, string) -> bool)
    requires TotalPreorder(localeLe)
    ensures ProjectsRail(projects, localeLe) == Take(ListedProjects(projects, None, None, localeLe), RailSize)
  {
    FilterKeepsAll(projects, ListedFn(None, None));
  }
}
