/** components/common/Pagination.tsx: page links that keep the other query parameters. */
module PaginationNav {
  import opened Wrappers
  import opened Seqs
  import opened Strings
  import opened SearchParams

  /** The parameters of `createPageUrl(newPage)`: page 1 is the absence of the parameter. */
  function PageParams(ps: Params, newPage: int): (r: Params)
    ensures newPage == 1 ==> !Has(r, "page")
    ensures newPage != 1 ==> Filter(r, KeyIs("page")) == [("page", IntToString(newPage))]
    ensures Filter(r, KeyIsNot("page")) == Filter(ps, KeyIsNot("page"))
  {
    if newPage == 1 then
      DeleteKeepsOthers(ps, "page", KeyIsNot("page"));
      Delete(ps, "page")
    else
      SetKeepsOthers(ps, "page", IntToString(newPage), KeyIsNot("page"));
      Set(ps, "page", IntToString(newPage))
  }

  /** `createPageUrl`. */
  function CreatePageUrl(pathname: string, ps: Params, newPage: int): (r: string)
    ensures PageParams(ps, newPage) == [] ==> r == pathname
    ensures PageParams(ps, newPage) != [] ==> r == pathname + "?" + Serialize(PageParams(ps, newPage))
  {
    WithQuery(pathname, PageParams(ps, newPage))
  }

  /** A link's page parameter reads back, through the pages' `parseInt`, as the page it targets. */
  lemma PageLinkReadsBack(ps: Params, newPage: nat)
    requires newPage >= 1
    ensures ReadPage(PageParams(ps, newPage)) == Some(newPage)
  {
    var r := PageParams(ps, newPage);
    if newPage != 1 {
      assert Get(r, "page") == Some(NatToString(newPage));
      LeadingDigitsOfNumber(newPage);
      ParseNatToString(newPage);
    }
  }

  /** The previous and next links; `None` where the component shows a disabled button. */
  datatype PageNav = PageNav(previous: Option<string>, next: Option<string>)

  /** The component: nothing for a single page, otherwise the two neighbouring links where they exist. */
  function Pagination(pathname: string, ps: Params, page: int, totalPages: int): (r: Option<PageNav>)
    ensures r.None? <==> totalPages <= 1
    ensures r.Some? ==> (r.value.previous.Some? <==> page > 1)
    ensures r.Some? ==> (r.value.next.Some? <==> page < totalPages)
    ensures r.Some? && page > 1 ==> r.value.previous.value == CreatePageUrl(pathname, ps, page - 1)
    ensures r.Some? && page < totalPages ==> r.value.next.value == CreatePageUrl(pathname, ps, page + 1)
  {
    if totalPages <= 1 then None
    else Some(PageNav(
      if page > 1 then Some(CreatePageUrl(pathname, ps, page - 1)) else None,
      if page < totalPages then Some(CreatePageUrl(pathname, ps, page + 1)) else None))
  }
}
