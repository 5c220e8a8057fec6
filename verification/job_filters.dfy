/**
 * components/jobs/JobFilters.tsx: the state changes the job filter panel
 * makes. Each handler is a function from the current filters to the ones it
 * passes to `onFiltersChange`.
 */
module JobFilterPanel {
  import opened Wrappers
  import opened Seqs
  import opened Strings
  import opened Types
  import opened Jobs

  /**
   * A `Partial<JobFilters>`: `None` leaves a field alone. `isRemote` is
   * doubly optional because `null` ("all") is itself a value to set.
   */
  datatype FilterUpdate = FilterUpdate(
    search: Option<string>,
    jobTypes: Option<seq<string>>,
    locations: Option<seq<string>>,
    salaryRange: Option<SalaryRange>,
    isRemote: Option<Option<bool>>)

  const NoUpdate: FilterUpdate := FilterUpdate(None, None, None, None, None)

  /** `updateFilters`: `{ ...filters, ...updates }`. */
  function UpdateFilters(filters: JobFilters, u: FilterUpdate): (r: JobFilters)
    ensures r.search == if u.search.Some? then u.search.value else filters.search
    ensures r.jobTypes == if u.jobTypes.Some? then u.jobTypes.value else filters.jobTypes
    ensures r.locations == if u.locations.Some? then u.locations.value else filters.locations
    ensures r.salaryRange == if u.salaryRange.Some? then u.salaryRange.value else filters.salaryRange
    ensures r.isRemote == if u.isRemote.Some? then u.isRemote.value else filters.isRemote
  {
    JobFilters(
      search := u.search.GetOr(filters.search),
      jobTypes := u.jobTypes.GetOr(filters.jobTypes),
      locations := u.locations.GetOr(filters.locations),
      salaryRange := u.salaryRange.GetOr(filters.salaryRange),
      isRemote := u.isRemote.GetOr(filters.isRemote))
  }

  /** An empty update changes nothing. */
  lemma EmptyUpdateIdentity(filters: JobFilters)
    ensures UpdateFilters(filters, NoUpdate) == filters
  {
  }

  function Other(x: string): string -> bool
  {
    (y: string) => y != x
  }

  /** The job-type and location toggles: remove every copy of a selected value, or append an unselected one. */
  function Toggle(list: seq<string>, x: string): (r: seq<string>)
    ensures x !in list ==> r == list + [x]
    ensures x in list ==> x !in r && r == Filter(list, Other(x))
  {
    if x in list then Filter(list, Other(x)) else list + [x]
  }

  /** Toggling a value that was not selected, then toggling it again, restores the list. */
  lemma ToggleTwice(list: seq<string>, x: string)
    requires x !in list
    ensures Toggle(Toggle(list, x), x) == list
  {
    FilterConcat(list, [x], Other(x));
    FilterKeepsAll(list, Other(x));
    assert Filter([x], Other(x)) == [];
    assert list + [] == list;
  }

  /** A toggle does not change whether another value is selected. */
  lemma ToggleKeepsOthers(list: seq<string>, x: string, y: string)
    requires y != x
    ensures y in Toggle(list, x) <==> y in list
  {
  }

  function ToggleJobType(filters: JobFilters, jobType: string): JobFilters
  {
    UpdateFilters(filters, NoUpdate.(jobTypes := Some(Toggle(filters.jobTypes, jobType))))
  }

  function ToggleLocation(filters: JobFilters, location: string): JobFilters
  {
    UpdateFilters(filters, NoUpdate.(locations := Some(Toggle(filters.locations, location))))
  }

  /** Toggling a job type twice restores the filters, and touches nothing but the job types. */
  lemma ToggleJobTypeTwice(filters: JobFilters, jobType: string)
    requires jobType !in filters.jobTypes
    ensures ToggleJobType(ToggleJobType(filters, jobType), jobType) == filters
    ensures ToggleJobType(filters, jobType).(jobTypes := filters.jobTypes) == filters
  {
    ToggleTwice(filters.jobTypes, jobType);
  }

  /** Toggling a location twice restores the filters, and touches nothing but the locations. */
  lemma ToggleLocationTwice(filters: JobFilters, location: string)
    requires location !in filters.locations
    ensures ToggleLocation(ToggleLocation(filters, location), location) == filters
    ensures ToggleLocation(filters, location).(locations := filters.locations) == filters
  {
    ToggleTwice(filters.locations, location);
  }

  /** `hasActiveFilters`. */
  predicate HasActiveFilters(f: JobFilters)
  {
    f.search != "" || |f.jobTypes| > 0 || |f.locations| > 0 || f.isRemote.Some? ||
    f.salaryRange.min > 0.0 || f.salaryRange.max < NoMaxSalary
  }

  /** `clearAllFilters`: the default filters and the 'date' sort. */
  function ClearAllFilters(): (r: (JobFilters, SortOption))
    ensures !HasActiveFilters(r.0) && r.1 == ByDate
    ensures r.0.search == "" && r.0.jobTypes == [] && r.0.locations == [] && r.0.isRemote.None?
    ensures r.0.salaryRange == SalaryRange(0.0, NoMaxSalary)
  {
    (DefaultFilters, ByDate)
  }

  /** Whenever no filter is active, filtering keeps every job: the panel's indicator is accurate. */
  lemma InactiveFiltersKeepAll(jobs: seq<JobData>, f: JobFilters)
    requires !HasActiveFilters(f)
    ensures FilterJobs(jobs, f) == jobs
  {
    FilterKeepsAll(jobs, KeepsFn(f));
  }

  /** `parseInt(value) || fallback`: `None` is `NaN`; `NaN` and 0 are both falsy. */
  function ParsedOr(parsed: Option<int>, fallback: int): (r: int)
    ensures parsed.Some? && parsed.value != 0 ==> r == parsed.value
    ensures parsed.None? || parsed.value == 0 ==> r == fallback
  {
    if parsed.Some? && parsed.value != 0 then parsed.value else fallback
  }

  /** The minimum salary input: unparseable or zero means no minimum. */
  function SetMinSalary(filters: JobFilters, parsed: Option<int>): (r: JobFilters)
    ensures r.(salaryRange := filters.salaryRange) == filters
    ensures r.salaryRange.max == filters.salaryRange.max
    ensures parsed.Some? && parsed.value != 0 ==> r.salaryRange.min == parsed.value as real
    ensures (parsed.None? || parsed.value == 0) ==> r.salaryRange.min == 0.0
  {
    UpdateFilters(filters, NoUpdate.(salaryRange := Some(filters.salaryRange.(min := ParsedOr(parsed, 0) as real))))
  }

  /** The maximum salary input: unparseable or zero means no maximum. */
  function SetMaxSalary(filters: JobFilters, parsed: Option<int>): (r: JobFilters)
    ensures r.(salaryRange := filters.salaryRange) == filters
    ensures r.salaryRange.min == filters.salaryRange.min
    ensures parsed.Some? && parsed.value != 0 ==> r.salaryRange.max == parsed.value as real
    ensures (parsed.None? || parsed.value == 0) ==> r.salaryRange.max == NoMaxSalary
  {
    UpdateFilters(filters, NoUpdate.(salaryRange := Some(filters.salaryRange.(max := ParsedOr(parsed, 1000000) as real))))
  }

  /**
   * What the inputs show afterwards: a positive minimum reads back from the
   * field (`filters.salaryRange.min || ''`) and switches the "active"
   * indicator on; an empty input leaves no minimum at all.
   */
  lemma MinSalaryReadBack(filters: JobFilters, v: int)
    requires v > 0
    ensures SetMinSalary(filters, Some(v)).salaryRange.min == v as real
    ensures HasActiveFilters(SetMinSalary(filters, Some(v)))
    ensures SetMinSalary(SetMinSalary(filters, Some(v)), None).salaryRange == filters.salaryRange.(min := 0.0)
  {
  }

  /**
   * A maximum below 1000000 reads back from the field and switches the
   * "active" indicator on; an empty input restores the 1000000 that the
   * field shows as blank.
   */
  lemma MaxSalaryReadBack(filters: JobFilters, v: int)
    requires 0 < v < 1000000
    ensures SetMaxSalary(filters, Some(v)).salaryRange.max == v as real
    ensures HasActiveFilters(SetMaxSalary(filters, Some(v)))
    ensures SetMaxSalary(SetMaxSalary(filters, Some(v)), None).salaryRange == filters.salaryRange.(max := NoMaxSalary)
  {
  }

  /** Each salary input overwrites only its own bound: the last value typed wins and the other bound is left alone. */
  lemma SalaryInputsIndependent(filters: JobFilters, p1: Option<int>, p2: Option<int>)
    ensures SetMinSalary(SetMinSalary(filters, p1), p2) == SetMinSalary(filters, p2)
    ensures SetMaxSalary(SetMaxSalary(filters, p1), p2) == SetMaxSalary(filters, p2)
    ensures SetMinSalary(SetMaxSalary(filters, p1), p2) == SetMaxSalary(SetMinSalary(filters, p2), p1)
  {
  }

  const ShownLocations: nat := 15

  /** The location buttons: the first 15 available locations, then "+N more" for the rest. */
  function LocationButtons(available: seq<string>): (r: (seq<string>, Option<string>))
    ensures |r.0| == if |available| < ShownLocations then |available| else ShownLocations
    ensures r.0 == available[..|r.0|]
    ensures r.1.Some? <==> |available| > ShownLocations
    ensures r.1.Some? ==> r.1.value == "+" + NatToString(|available| - ShownLocations) + " more"
  {
    var more := if |available| > ShownLocations then Some("+" + NatToString(|available| - ShownLocations) + " more") else None;
    (Take(available, ShownLocations), more)
  }
}
