/**
 * app/news/page.tsx: the news list, newest first, narrowed by the "tag"
 * query parameter and cut into pages of nine, with a tag bar over all news.
 */
module NewsPage {
  import opened Wrappers
  import opened Seqs
  import opened Strings
  import opened Sorting
  import opened Types
  import opened SearchParams
  import opened Paginate
  import TagLinks

  const NewsPerPage: nat := 9

  function PublishedAt(ts: string -> int): NewsItem -> int
  {
    (n: NewsItem) => ts(n.publishedAt)
  }

  /** `news`: the items by `publishedAt`, newest first, ties in file order. */
  function SortedNews(news: seq<NewsItem>, ts: string -> int): (r: seq<NewsItem>)
    ensures multiset(r) == multiset(news)
    ensures forall i, j :: 0 <= i < j < |r| ==> ts(r[j].publishedAt) <= ts(r[i].publishedAt)
  {
    ByKeyTotal(PublishedAt(ts));
    Sort(news, ByKeyDesc(PublishedAt(ts)))
  }

  /** `item.tags || []`. */
  function TagsOf(item: NewsItem): seq<string>
  {
    item.tags.GetOr([])
  }

  /** `item.tags?.includes(tag)`: a missing tag list includes nothing. */
  predicate HasTag(item: NewsItem, tag: string)
  {
    tag in TagsOf(item)
  }

  function HasTagFn(tag: string): NewsItem -> bool
  {
    (n: NewsItem) => HasTag(n, tag)
  }

  /** A non-empty selected tag keeps exactly the items carrying it; otherwise nothing is removed. */
  function FilteredNews(sorted: seq<NewsItem>, selectedTag: Option<string>): (r: seq<NewsItem>)
    ensures !Truthy(selectedTag) ==> r == sorted
    ensures Truthy(selectedTag) ==> r == Filter(sorted, HasTagFn(selectedTag.value))
    ensures Truthy(selectedTag) ==> forall x :: x in r <==> x in sorted && HasTag(x, selectedTag.value)
  {
    if Truthy(selectedTag) then Filter(sorted, HasTagFn(selectedTag.value)) else sorted
  }

  function NewsTagLists(news: seq<NewsItem>): (r: seq<seq<string>>)
    ensures |r| == |news| && forall i :: 0 <= i < |news| ==> r[i] == TagsOf(news[i])
  {
    seq(|news|, i requires 0 <= i < |news| => TagsOf(news[i]))
  }

  /** The tag bar: every tag of every item, once each, ascending. */
  function NewsTags(news: seq<NewsItem>): (r: seq<string>)
    ensures Distinct(r) && SortedBy(r, StrLe)
    ensures forall t :: t in r <==> exists i :: 0 <= i < |news| && t in TagsOf(news[i])
  {
    var lists := NewsTagLists(news);
    assert forall i :: 0 <= i < |news| ==> lists[i] == TagsOf(news[i]);
    SortedDistinct(Flatten(lists))
  }

  datatype NewsView = NewsView(tagBar: seq<string>, shown: Shown<NewsItem>)

  /** The page for the query parameters `ps`. */
  function RenderNews(news: seq<NewsItem>, ps: Params, ts: string -> int): (r: NewsView)
    ensures r.tagBar == NewsTags(SortedNews(news, ts))
    ensures r.shown == PaginateParsed(FilteredNews(SortedNews(news, ts), Get(ps, "tag")), ReadPage(ps), NewsPerPage)
  {
    var sorted := SortedNews(news, ts);
    NewsView(NewsTags(sorted), PaginateParsed(FilteredNews(sorted, Get(ps, "tag")), ReadPage(ps), NewsPerPage))
  }

  /** The tag bar holds the same tags whatever the order of the news. */
  lemma TagBarIgnoresOrder(news: seq<NewsItem>, ts: string -> int, t: string)
    ensures t in NewsTags(SortedNews(news, ts)) <==> t in NewsTags(news)
  {
    var sorted := SortedNews(news, ts);
    if t in NewsTags(news) {
      var i :| 0 <= i < |news| && t in TagsOf(news[i]);
      var j := IndexIn(sorted, news, i);
      assert t in TagsOf(sorted[j]);
    }
    if t in NewsTags(sorted) {
      var j :| 0 <= j < |sorted| && t in TagsOf(sorted[j]);
      var i := IndexIn(news, sorted, j);
      assert t in TagsOf(news[i]);
    }
  }

  /** An element of one list is found in any permutation of it. */
  lemma IndexIn(b: seq<NewsItem>, a: seq<NewsItem>, i: nat) returns (j: nat)
    requires multiset(a) == multiset(b) && i < |a|
    ensures j < |b| && b[j] == a[i]
  {
    assert a[i] in multiset(a);
    assert a[i] in b;
    j :| 0 <= j < |b| && b[j] == a[i];
  }

  /** A tag some item carries selects that item. */
  lemma TaggedItemKept(sorted: seq<NewsItem>, j: nat, t: string)
    requires j < |sorted| && t in TagsOf(sorted[j])
    ensures sorted[j] in FilteredNews(sorted, Some(t))
  {
    if t != "" {
      assert HasTagFn(t)(sorted[j]);
    }
  }

  /** Every tag in the bar selects at least one item. */
  lemma TagBarNeverEmpty(news: seq<NewsItem>, ts: string -> int, t: string)
    requires t in NewsTags(SortedNews(news, ts))
    ensures FilteredNews(SortedNews(news, ts), Some(t)) != []
  {
    var sorted := SortedNews(news, ts);
    var j :| 0 <= j < |sorted| && t in TagsOf(sorted[j]);
    TaggedItemKept(sorted, j, t);
  }

  /** Clicking a tag lands on the first page of the items carrying that tag. */
  lemma TagClickShowsFirstPage(news: seq<NewsItem>, ps: Params, ts: string -> int, t: string)
    requires t != "" && t != "All"
    ensures var view := RenderNews(news, TagLinks.TagClickParams(ps, t, false), ts);
      var tagged := Filter(SortedNews(news, ts), HasTagFn(t));
      view.shown.page == Some(1) && view.shown.slice == Take(tagged, NewsPerPage)
  {
    var after := TagLinks.TagClickParams(ps, t, false);
    assert Get(after, "tag") == Some(t);
    assert !Has(after, "page");
    assert ReadPage(after) == Some(1);
  }
}
