/** components/common/Tag.tsx: the query-string update made by clicking a tag. */
module TagLinks {
  import opened Wrappers
  import opened Seqs
  import opened SearchParams

  /** Pairs the click does not touch: every key other than "tag" and "page". */
  function Untouched(): ((string, string)) -> bool
  {
    (p: (string, string)) => p.0 != "tag" && p.0 != "page"
  }

  /** The parameters after `handleClick`. */
  function TagClickParams(ps: Params, tag: string, selected: bool): (r: Params)
    ensures !Has(r, "page")
    ensures selected || tag == "All" ==> !Has(r, "tag")
    ensures !selected && tag != "All" ==> Filter(r, KeyIs("tag")) == [("tag", tag)]
    ensures Filter(r, Untouched()) == Filter(ps, Untouched())
  {
    var withTag := if selected || tag == "All" then Delete(ps, "tag") else Set(ps, "tag", tag);
    var r := Delete(withTag, "page");
    assert Filter(r, Untouched()) == Filter(ps, Untouched()) && (selected || tag == "All" ==> !Has(r, "tag"))
      && (!selected && tag != "All" ==> Filter(r, KeyIs("tag")) == [("tag", tag)]) by {
      if selected || tag == "All" {
        DeleteKeepsOthers(ps, "tag", Untouched());
        FilterNone(withTag, KeyIs("tag"));
        DeleteKeepsOthers(withTag, "page", KeyIs("tag"));
        FilterNoneBack(r, "tag");
      } else {
        SetKeepsOthers(ps, "tag", tag, Untouched());
        DeleteKeepsOthers(withTag, "page", KeyIs("tag"));
      }
      DeleteKeepsOthers(withTag, "page", Untouched());
    }
    r
  }

  /** A list with no pair for a key has none when filtered by that key, and conversely. */
  lemma FilterNoneBack(ps: Params, name: string)
    requires Filter(ps, KeyIs(name)) == []
    ensures !Has(ps, name)
  {
  }

  /** `router.replace` target: the pathname, with the query when one remains. */
  function HandleClick(pathname: string, ps: Params, tag: string, selected: bool): (r: string)
    ensures TagClickParams(ps, tag, selected) == [] ==> r == pathname
    ensures TagClickParams(ps, tag, selected) != [] ==> r == pathname + "?" + Serialize(TagClickParams(ps, tag, selected))
  {
    WithQuery(pathname, TagClickParams(ps, tag, selected))
  }

  /** Clicking an unselected tag and then the same tag, now selected, removes the tag filter and the page. */
  lemma SelectThenDeselect(ps: Params, tag: string)
    requires tag != "All"
    ensures var once := TagClickParams(ps, tag, false);
      var twice := TagClickParams(once, tag, true);
      !Has(twice, "tag") && !Has(twice, "page") && Filter(twice, Untouched()) == Filter(ps, Untouched())
  {
  }

  /** After selecting a tag, reading the "tag" parameter gives that tag. */
  lemma SelectedTagIsRead(ps: Params, tag: string)
    requires tag != "All"
    ensures Get(TagClickParams(ps, tag, false), "tag") == Some(tag)
  {
  }
}
