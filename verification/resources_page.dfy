/**
 * app/resources/page.tsx: the resource library's tag list, filters, date
 * sort and page window. The page's client state is an input; dates are
 * read through `ts`.
 */
module ResourcesPage {
  import opened Wrappers
  import opened Seqs
  import opened Strings
  import opened Sorting
  import opened Types
  import Paginate

  const ItemsPerPage: nat := 12

  datatype CategoryChoice = AllCategories | OnlyCategory(category: ResourceCategory)

  datatype DateSort = Newest | Oldest

  /** The page's state: the selected category and tags, the search box, the sort and the current page. */
  datatype ResourceView = ResourceView(category: CategoryChoice, selectedTags: seq<string>, query: string,
                                       sortBy: DateSort, currentPage: int)

  function TagLists(resources: seq<Resource>): (r: seq<seq<string>>)
    ensures |r| == |resources| && forall i :: 0 <= i < |resources| ==> r[i] == resources[i].tags
  {
    seq(|resources|, i requires 0 <= i < |resources| => resources[i].tags)
  }

  /** `allTags`: every tag of every resource, once each, ascending. */
  function AllTags(resources: seq<Resource>): (r: seq<string>)
    ensures Distinct(r) && SortedBy(r, StrLe)
    ensures forall t :: t in r <==> exists i :: 0 <= i < |resources| && t in resources[i].tags
  {
    var lists := TagLists(resources);
    var r := SortedDistinct(Flatten(lists));
    assert forall i :: 0 <= i < |resources| ==> lists[i] == resources[i].tags;
    r
  }

  predicate MatchesCategory(view: ResourceView, r: Resource)
  {
    view.category.AllCategories? || r.category == view.category.category
  }

  /** With tags selected, a resource must carry at least one of them. */
  predicate MatchesTags(view: ResourceView, r: Resource)
  {
    |view.selectedTags| == 0 || exists t :: t in view.selectedTags && t in r.tags
  }

  /** With a search query, it must occur, ignoring case, in the title, the description or some tag. */
  predicate MatchesQuery(view: ResourceView, r: Resource)
  {
    var q := Lower(view.query);
    view.query == "" ||
    Contains(Lower(r.title), q) || Contains(Lower(r.description), q) ||
    exists t :: t in r.tags && Contains(Lower(t), q)
  }

  predicate Keeps(view: ResourceView, r: Resource)
  {
    MatchesCategory(view, r) && MatchesTags(view, r) && MatchesQuery(view, r)
  }

  function KeepsFn(view: ResourceView): Resource -> bool
  {
    (r: Resource) => Keeps(view, r)
  }

  function UploadedAt(ts: string -> int): Resource -> int
  {
    (r: Resource) => ts(r.uploadedAt)
  }

  /** The stable date sort: newest or oldest first, ties in file order. */
  function SortByDate(kept: seq<Resource>, sortBy: DateSort, ts: string -> int): (r: seq<Resource>)
    ensures multiset(r) == multiset(kept)
    ensures sortBy == Newest ==> forall i, j :: 0 <= i < j < |r| ==> ts(r[j].uploadedAt) <= ts(r[i].uploadedAt)
    ensures sortBy == Oldest ==> forall i, j :: 0 <= i < j < |r| ==> ts(r[i].uploadedAt) <= ts(r[j].uploadedAt)
  {
    if sortBy == Newest then
      SortByKeyDescending(kept, UploadedAt(ts));
      Sort(kept, ByKeyDesc(UploadedAt(ts)))
    else
      SortByKeyAscending(kept, UploadedAt(ts));
      Sort(kept, ByKey(UploadedAt(ts)))
  }

  /**
   * `filteredResources`: the three filters, each a no-op when inactive, then
   * the stable date sort.
   */
  function FilteredResources(resources: seq<Resource>, view: ResourceView, ts: string -> int): (r: seq<Resource>)
    ensures multiset(r) == multiset(Filter(resources, KeepsFn(view)))
    ensures forall x :: x in r <==> x in resources && Keeps(view, x)
    ensures view.sortBy == Newest ==> forall i, j :: 0 <= i < j < |r| ==> ts(r[j].uploadedAt) <= ts(r[i].uploadedAt)
    ensures view.sortBy == Oldest ==> forall i, j :: 0 <= i < j < |r| ==> ts(r[i].uploadedAt) <= ts(r[j].uploadedAt)
  {
    var kept := Filter(resources, KeepsFn(view));
    var r := SortByDate(kept, view.sortBy, ts);
    assert forall x :: x in r <==> x in resources && Keeps(view, x) by {
      forall x
        ensures x in r <==> x in resources && Keeps(view, x)
      {
        assert x in r <==> x in multiset(kept);
        if x in resources && Keeps(view, x) {
          var i :| 0 <= i < |resources| && resources[i] == x;
          assert KeepsFn(view)(resources[i]);
        }
      }
    }
    r
  }

  /** With no category, no tags and no query, every resource is listed. */
  lemma NoCriteriaKeepAll(resources: seq<Resource>, view: ResourceView, ts: string -> int)
    requires view.category.AllCategories? && view.selectedTags == [] && view.query == ""
    ensures multiset(FilteredResources(resources, view, ts)) == multiset(resources)
  {
    FilterKeepsAll(resources, KeepsFn(view));
  }

  /** The window shown: `slice((p - 1) * 12, (p - 1) * 12 + 12)`, with no clamping of the page. */
  function PageWindow(items: seq<Resource>, currentPage: int): (r: seq<Resource>)
    ensures |r| <= ItemsPerPage
    ensures currentPage >= 1 && (currentPage - 1) * ItemsPerPage <= |items| ==>
      r == Paginate.Window(items, (currentPage - 1) * ItemsPerPage, ItemsPerPage)
    ensures currentPage >= 1 && (currentPage - 1) * ItemsPerPage > |items| ==> r == []
  {
    var start := (currentPage - 1) * ItemsPerPage;
    Slice(items, start, start + ItemsPerPage)
  }

  /** `Math.ceil(n / 12)`. */
  function TotalPages(items: seq<Resource>): (r: nat)
    ensures r * ItemsPerPage >= |items| && (r > 0 ==> (r - 1) * ItemsPerPage < |items|)
  {
    Paginate.CeilDiv(|items|, ItemsPerPage)
  }

  /** The page as rendered: the window, the page count and the two arrow buttons' enabled state. */
  datatype ResourcePage = ResourcePage(shown: seq<Resource>, totalPages: nat, showControls: bool,
                                       previousEnabled: bool, nextEnabled: bool)

  function RenderResources(resources: seq<Resource>, view: ResourceView, ts: string -> int): (r: ResourcePage)
    ensures r.shown == PageWindow(FilteredResources(resources, view, ts), view.currentPage)
    ensures r.totalPages == TotalPages(FilteredResources(resources, view, ts))
    ensures r.showControls <==> r.totalPages > 1
    ensures r.previousEnabled <==> view.currentPage != 1
    ensures r.nextEnabled <==> view.currentPage != r.totalPages
  {
    var filtered := FilteredResources(resources, view, ts);
    var total := TotalPages(filtered);
    ResourcePage(PageWindow(filtered, view.currentPage), total, total > 1, view.currentPage != 1, view.currentPage != total)
  }

  /** For a page in range the unclamped window is the page `paginateArray` would give. */
  lemma WindowAgreesWithPaginate(items: seq<Resource>, currentPage: int)
    requires 1 <= currentPage <= TotalPages(items)
    ensures PageWindow(items, currentPage) == Paginate.PaginateArray(items, currentPage, ItemsPerPage).slice
  {
    Paginate.MulMono(currentPage - 1, TotalPages(items) - 1, ItemsPerPage);
  }
}
