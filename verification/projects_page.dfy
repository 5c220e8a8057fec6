/**
 * app/projects/page.tsx: projects narrowed by the "type" and "level" query
 * parameters, sorted by title and cut into pages of nine, and the hrefs of
 * the type and level filter links. Title comparison (`localeCompare`) is
 * the total preorder `localeLe`.
 */
module ProjectsPage {
  import opened Wrappers
  import opened Seqs
  import opened Strings
  import opened Sorting
  import opened Types
  import opened SearchParams
  import opened Paginate

  const ProjectsPerPage: nat := 9

  /** The JSON spelling of a project type. */
  function TypeName(t: ProjectType): string
  {
    match t
    case CodeProject => "code"
    case NoCode => "no-code"
    case Hybrid => "hybrid"
  }

  /** The JSON spelling of a level. */
  function LevelName(l: Level): string
  {
    match l
    case Beginner => "beginner"
    case Intermediate => "intermediate"
    case Advanced => "advanced"
  }

  /** The type filter applies when a type other than "all" is given. */
  predicate TypeFilterActive(projectType: Option<string>)
  {
    Truthy(projectType) && projectType.value != "all"
  }

  /** A project is listed when it has the requested type (if any) and the requested level (if any). */
  predicate Listed(projectType: Option<string>, level: Option<string>, p: ProjectItem)
  {
    (!TypeFilterActive(projectType) || TypeName(p.projectType) == projectType.value) &&
    (!Truthy(level) || LevelName(p.level) == level.value)
  }

  function ListedFn(projectType: Option<string>, level: Option<string>): ProjectItem -> bool
  {
    (p: ProjectItem) => Listed(projectType, level, p)
  }

  function Title(p: ProjectItem): string { p.title }

  /** The filtered projects in title order, ties in file order. */
  function ListedProjects(projects: seq<ProjectItem>, projectType: Option<string>, level: Option<string>,
                          localeLe: (string, string) -> bool): (r: seq<ProjectItem>)
    requires TotalPreorder(localeLe)
    ensures multiset(r) == multiset(Filter(projects, ListedFn(projectType, level)))
    ensures forall x :: x in r <==> x in projects && Listed(projectType, level, x)
    ensures forall i, j :: 0 <= i < j < |r| ==> localeLe(r[i].title, r[j].title)
  {
    OnTotal(localeLe, Title);
    var kept := Filter(projects, ListedFn(projectType, level));
    var r := Sort(kept, On(localeLe, Title));
    SortedTitles(r, localeLe);
    KeptAreListed(projects, projectType, level, r);
    r
  }

  /** A list sorted on titles has its titles in `localeLe` order. */
  lemma SortedTitles(r: seq<ProjectItem>, localeLe: (string, string) -> bool)
    requires SortedBy(r, On(localeLe, Title))
    ensures forall i, j :: 0 <= i < j < |r| ==> localeLe(r[i].title, r[j].title)
  {
    var le := On(localeLe, Title);
    forall i, j | 0 <= i < j < |r|
      ensures localeLe(r[i].title, r[j].title)
    {
      assert le(r[i], r[j]);
      assert le(r[i], r[j]) == localeLe(Title(r[i]), Title(r[j]));
      assert Title(r[i]) == r[i].title && Title(r[j]) == r[j].title;
    }
  }

  /** A permutation of the filtered projects holds exactly the listed ones. */
  lemma KeptAreListed(projects: seq<ProjectItem>, projectType: Option<string>, level: Option<string>, r: seq<ProjectItem>)
    requires multiset(r) == multiset(Filter(projects, ListedFn(projectType, level)))
    ensures forall x :: x in r <==> x in projects && Listed(projectType, level, x)
  {
    var kept := Filter(projects, ListedFn(projectType, level));
    forall x
      ensures x in r <==> x in projects && Listed(projectType, level, x)
    {
      assert x in r <==> x in multiset(kept);
      if x in projects && Listed(projectType, level, x) {
        var i :| 0 <= i < |projects| && projects[i] == x;
        assert ListedFn(projectType, level)(projects[i]);
      }
    }
  }

  /**
   * The page for the query parameters `ps`: at most nine listed projects in
   * title order, the first nine on page 1, nothing for an unreadable page
   * number, and a page count that covers every listed project.
   */
  function RenderProjects(projects: seq<ProjectItem>, ps: Params, localeLe: (string, string) -> bool): (r: Shown<ProjectItem>)
    requires TotalPreorder(localeLe)
    ensures r.totalPages == CeilDiv(|Filter(projects, ListedFn(Get(ps, "type"), Get(ps, "level")))|, ProjectsPerPage)
    ensures r.page.None? <==> ReadPage(ps).None?
    ensures r.page.None? ==> r.slice == []
    ensures |r.slice| <= ProjectsPerPage
    ensures forall x :: x in r.slice ==> x in projects && Listed(Get(ps, "type"), Get(ps, "level"), x)
    ensures forall i, j :: 0 <= i < j < |r.slice| ==> localeLe(r.slice[i].title, r.slice[j].title)
    ensures ReadPage(ps) == Some(1) ==>
      r.page == Some(1) && r.slice == Take(ListedProjects(projects, Get(ps, "type"), Get(ps, "level"), localeLe), ProjectsPerPage)
  {
    var listed := ListedProjects(projects, Get(ps, "type"), Get(ps, "level"), localeLe);
    ShownWindow(listed, ReadPage(ps), localeLe);
    assert |listed| == |Filter(projects, ListedFn(Get(ps, "type"), Get(ps, "level")))| by {
      assert |multiset(listed)| == |multiset(Filter(projects, ListedFn(Get(ps, "type"), Get(ps, "level"))))|;
    }
    PaginateParsed(listed, ReadPage(ps), ProjectsPerPage)
  }

  /** A shown page is a window of the list: its items come from the list in list order, and page 1 is the head. */
  lemma ShownWindow(listed: seq<ProjectItem>, page: Option<int>, localeLe: (string, string) -> bool)
    requires forall i, j :: 0 <= i < j < |listed| ==> localeLe(listed[i].title, listed[j].title)
    ensures var r := PaginateParsed(listed, page, ProjectsPerPage);
      |r.slice| <= ProjectsPerPage &&
      (forall x :: x in r.slice ==> x in listed) &&
      (forall i, j :: 0 <= i < j < |r.slice| ==> localeLe(r.slice[i].title, r.slice[j].title)) &&
      (page == Some(1) ==> r.page == Some(1) && r.slice == Take(listed, ProjectsPerPage))
  {
    var r := PaginateParsed(listed, page, ProjectsPerPage);
    if page.Some? {
      var pg := PaginateArray(listed, page.value, ProjectsPerPage);
      var start := (pg.page - 1) * ProjectsPerPage;
      assert r.slice == listed[start..start + |r.slice|];
      forall i, j | 0 <= i < j < |r.slice|
        ensures localeLe(r.slice[i].title, r.slice[j].title)
      {
        assert r.slice[i] == listed[start + i] && r.slice[j] == listed[start + j];
      }
      if page == Some(1) {
        assert pg.page == 1;
      }
    }
  }

  /** With neither parameter, every project is listed. */
  lemma NoParametersListAll(projects: seq<ProjectItem>, localeLe: (string, string) -> bool)
    requires TotalPreorder(localeLe)
    ensures multiset(ListedProjects(projects, None, None, localeLe)) == multiset(projects)
  {
    FilterKeepsAll(projects, ListedFn(None, None));
  }

  // ---------------------------------------------------------------------------
  // Filter links
  // ---------------------------------------------------------------------------

  /** The href of the type button for `value` ("all", "code", "no-code" or "hybrid"). */
  function TypeLinkHref(value: string, level: Option<string>): string
  {
    var baseUrl := if Truthy(level) then "/projects?level=" + level.value else "/projects";
    if value == "all" then baseUrl
    else if Truthy(level) then "/projects?type=" + value + "&level=" + level.value
    else "/projects?type=" + value
  }

  /** The type button for `value` is highlighted. */
  predicate TypeLinkActive(value: string, projectType: Option<string>)
  {
    if !Truthy(projectType) then value == "all" else projectType.value == value
  }

  /** The href of the level "All" button: the type is kept. */
  function LevelAllHref(projectType: Option<string>): string
  {
    if Truthy(projectType) then "/projects?type=" + projectType.value else "/projects"
  }

  /** The href of the button for level `levelName`: the type is kept. */
  function LevelLinkHref(projectType: Option<string>, levelName: string): string
  {
    if Truthy(projectType) then "/projects?type=" + projectType.value + "&level=" + levelName
    else "/projects?level=" + levelName
  }

  /** The query a link asks for: `type` when given, then `level` when given. */
  function LinkParams(projectType: Option<string>, level: Option<string>): (r: Params)
    ensures Get(r, "type") == (if Truthy(projectType) then projectType else None)
    ensures Get(r, "level") == (if Truthy(level) then level else None)
  {
    var t: Params := if Truthy(projectType) then [("type", projectType.value)] else [];
    var l: Params := if Truthy(level) then [("level", level.value)] else [];
    FilterConcat(t, l, KeyIs("type"));
    FilterConcat(t, l, KeyIs("level"));
    t + l
  }

  lemma QueryTypeLevel(t: string, l: string)
    requires t != "" && l != ""
    ensures WithQuery("/projects", LinkParams(Some(t), Some(l))) == "/projects?type=" + t + "&level=" + l
  {
    var ps := LinkParams(Some(t), Some(l));
    assert ps == [("type", t), ("level", l)];
    assert ps[1..] == [("level", l)];
    assert Serialize(ps) == "type" + "=" + t + "&" + ("level" + "=" + l);
    assert "/projects" + "?" + "type" + "=" == "/projects?type=";
    assert "&" + "level" + "=" == "&level=";
  }

  lemma QueryType(t: string)
    requires t != ""
    ensures WithQuery("/projects", LinkParams(Some(t), None)) == "/projects?type=" + t
  {
    var ps := LinkParams(Some(t), None);
    assert ps == [("type", t)];
    assert Serialize(ps) == "type" + "=" + t;
    assert "/projects" + "?" + "type" + "=" == "/projects?type=";
  }

  lemma QueryLevel(l: string)
    requires l != ""
    ensures WithQuery("/projects", LinkParams(None, Some(l))) == "/projects?level=" + l
  {
    var ps := LinkParams(None, Some(l));
    assert ps == [("level", l)];
    assert Serialize(ps) == "level" + "=" + l;
    assert "/projects" + "?" + "level" + "=" == "/projects?level=";
  }

  /** Absent and empty parameters ask for the same query. */
  lemma LinkParamsFalsy(t: Option<string>, l: Option<string>)
    ensures LinkParams(t, l) == LinkParams(if Truthy(t) then t else None, if Truthy(l) then l else None)
  {
  }

  /** "/projects?" followed by the serialised query of the given pairs. */
  lemma ProjectsQuery(t: Option<string>, l: Option<string>)
    requires Truthy(t) || Truthy(l)
    ensures Truthy(t) && Truthy(l) ==>
      WithQuery("/projects", LinkParams(t, l)) == "/projects?type=" + t.value + "&level=" + l.value
    ensures Truthy(t) && !Truthy(l) ==> WithQuery("/projects", LinkParams(t, l)) == "/projects?type=" + t.value
    ensures !Truthy(t) && Truthy(l) ==> WithQuery("/projects", LinkParams(t, l)) == "/projects?level=" + l.value
  {
    LinkParamsFalsy(t, l);
    if Truthy(t) && Truthy(l) {
      QueryTypeLevel(t.value, l.value);
    } else if Truthy(t) {
      QueryType(t.value);
    } else {
      QueryLevel(l.value);
    }
  }

  /** Each type button links to the query naming that type (none for "all") and the current level. */
  lemma TypeLinkQuery(value: string, level: Option<string>)
    requires value != ""
    ensures var target := if value == "all" then None else Some(value);
      TypeLinkHref(value, level) == WithQuery("/projects", LinkParams(target, level))
  {
    var target := if value == "all" then None else Some(value);
    if Truthy(target) || Truthy(level) {
      ProjectsQuery(target, level);
    }
  }

  /** Each level button keeps the current type and names its level. */
  lemma LevelLinkQuery(projectType: Option<string>, levelName: string)
    requires levelName != ""
    ensures LevelLinkHref(projectType, levelName) == WithQuery("/projects", LinkParams(projectType, Some(levelName)))
    ensures LevelAllHref(projectType) == WithQuery("/projects", LinkParams(projectType, None))
  {
    ProjectsQuery(projectType, Some(levelName));
    if Truthy(projectType) {
      ProjectsQuery(projectType, None);
    }
  }

  /**
   * Following a type button whose values are plain text lists the projects
   * of that type at the current level.
   */
  lemma TypeLinkLists(projects: seq<ProjectItem>, value: string, level: Option<string>, localeLe: (string, string) -> bool)
    requires TotalPreorder(localeLe)
    requires value != "" && value != "all" && Plain(LinkParams(Some(value), level))
    ensures var ps := ParseQuery(Serialize(LinkParams(Some(value), level)));
      ListedProjects(projects, Get(ps, "type"), Get(ps, "level"), localeLe) ==
      ListedProjects(projects, Some(value), if Truthy(level) then level else None, localeLe)
  {
    ParseSerialize(LinkParams(Some(value), level));
  }
}
