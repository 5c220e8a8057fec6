/**
 * lib/jobUtils.ts: turning a jobs-table row into a listing, and the
 * filtering, sorting and filter-option extraction of the jobs page.
 * `localeCompare` is an abstract total preorder `localeLe` and
 * `new Date(s).getTime()` the function `ts`.
 */
module Jobs {
  import opened Wrappers
  import opened Seqs
  import opened Strings
  import opened Sorting
  import opened Types

  // ---------------------------------------------------------------------------
  // Row mapping
  // ---------------------------------------------------------------------------

  /** `mapSupabaseJobToJobData`: SQL nulls become the defaults the page expects. */
  function MapJobRow(row: JobRow): (r: JobData)
    ensures r.jobType == if row.jobType.None? then ["Full-time"] else row.jobType.value
    ensures r.benefits == row.benefits.GetOr([]) && r.attributes == row.attributes.GetOr([])
    ensures r.requirements == row.requirements.GetOr([])
    ensures r.salary.salaryMax == row.salaryMax.GetOr(0.0) && r.salary.salaryMin == row.salaryMin.GetOr(0.0)
    ensures r.location.formattedAddressShort == row.locationCity + ", " + row.locationCountryCode
    ensures r.location.fullAddress == row.locationFullAddress && r.location.city == row.locationCity
    ensures r.postedAt == Some(row.createdAt) && r.jobKey == row.jobKey && r.title == row.title
  {
    JobData(
      jobKey := row.jobKey,
      title := row.title,
      companyName := row.companyName,
      jobType := row.jobType.GetOr(["Full-time"]),
      descriptionText := row.descriptionText,
      companyUrl := row.companyUrl,
      location := JobLocation(
        city := row.locationCity,
        postalCode := row.locationPostalCode,
        country := row.locationCountry,
        countryCode := row.locationCountryCode,
        formattedAddressLong := row.locationFullAddress,
        formattedAddressShort := row.locationCity + ", " + row.locationCountryCode,
        latitude := 0.0,
        longitude := 0.0,
        streetAddress := None,
        fullAddress := row.locationFullAddress),
      salary := Salary(
        salaryCurrency := row.salaryCurrency,
        salaryMax := row.salaryMax.GetOr(0.0),
        salaryMin := row.salaryMin.GetOr(0.0),
        salarySource := "database",
        salaryText := row.salaryText,
        salaryType := row.salaryType),
      benefits := row.benefits.GetOr([]),
      attributes := row.attributes.GetOr([]),
      jobUrl := row.jobUrl,
      applyUrl := row.applyUrl,
      requirements := row.requirements.GetOr([]),
      jobCardSummary := row.jobCardSummary,
      postedAt := Some(row.createdAt))
  }

  // ---------------------------------------------------------------------------
  // Remote detection and salary
  // ---------------------------------------------------------------------------

  const RemoteKeywords: seq<string> := ["remote", "anywhere", "virtual", "work from home", "wfh"]

  /** Some keyword of `keywords` occurs in `text`, both lower-cased. */
  function AnyOccurs(text: string, keywords: seq<string>): (r: bool)
    ensures r <==> exists i :: 0 <= i < |keywords| && Contains(Lower(text), Lower(keywords[i]))
  {
    if keywords == [] then false
    else if Contains(Lower(text), Lower(keywords[0])) then true
    else
      var r := AnyOccurs(text, keywords[1..]);
      assert forall i :: 1 <= i < |keywords| ==> keywords[i] == keywords[1..][i - 1];
      r
  }

  /** `isRemoteLocation`. */
  predicate IsRemoteLocation(location: string)
  {
    AnyOccurs(location, RemoteKeywords)
  }

  function Min(a: real, b: real): real { if a <= b then a else b }
  function Max(a: real, b: real): real { if a <= b then b else a }

  /** `extractSalaryValue`: the midpoint when both bounds are set, else the one that is set, else 0. */
  function SalaryValue(job: JobData): (r: real)
    ensures job.salary.salaryMax == 0.0 && job.salary.salaryMin == 0.0 ==> r == 0.0
    ensures job.salary.salaryMax != 0.0 && job.salary.salaryMin != 0.0 ==>
      r == (job.salary.salaryMax + job.salary.salaryMin) / 2.0
    ensures (job.salary.salaryMax == 0.0) != (job.salary.salaryMin == 0.0) ==>
      r == job.salary.salaryMax + job.salary.salaryMin
    ensures Min(job.salary.salaryMin, job.salary.salaryMax) <= r <= Max(job.salary.salaryMin, job.salary.salaryMax)
  {
    var hi := job.salary.salaryMax;
    var lo := job.salary.salaryMin;
    if hi == 0.0 && lo == 0.0 then 0.0
    else if hi != 0.0 && lo != 0.0 then (hi + lo) / 2.0
    else if hi != 0.0 then hi
    else lo
  }

  // ---------------------------------------------------------------------------
  // Filtering
  // ---------------------------------------------------------------------------

  const NoMaxSalary: real := 1000000.0

  datatype SalaryRange = SalaryRange(min: real, max: real)

  /** The jobs page filters; `isRemote` is `None` for "all". */
  datatype JobFilters = JobFilters(
    search: string,
    jobTypes: seq<string>,
    locations: seq<string>,
    salaryRange: SalaryRange,
    isRemote: Option<bool>)

  predicate MatchesSearch(job: JobData, search: string)
  {
    var term := Lower(search);
    search == "" ||
    Contains(Lower(job.title), term) ||
    (job.companyName.Some? && Contains(Lower(job.companyName.value), term)) ||
    Contains(Lower(job.location.formattedAddressShort), term)
  }

  predicate MatchesJobType(job: JobData, jobTypes: seq<string>)
  {
    jobTypes == [] || exists i :: 0 <= i < |job.jobType| && job.jobType[i] in jobTypes
  }

  predicate MatchesLocation(job: JobData, locations: seq<string>)
  {
    locations == [] || job.location.city in locations || job.location.formattedAddressShort in locations
  }

  predicate JobIsRemote(job: JobData)
  {
    IsRemoteLocation(job.location.formattedAddressShort) || IsRemoteLocation(job.location.fullAddress)
  }

  predicate MatchesRemote(job: JobData, isRemote: Option<bool>)
  {
    isRemote.None? || isRemote.value == JobIsRemote(job)
  }

  /** The salary filter is on once the range is narrowed at either end. */
  predicate SalaryFilterActive(range: SalaryRange)
  {
    range.min > 0.0 || range.max < NoMaxSalary
  }

  /** Jobs without a salary always pass the salary filter. */
  predicate MatchesSalary(job: JobData, range: SalaryRange)
  {
    !SalaryFilterActive(range) || SalaryValue(job) == 0.0 || range.min <= SalaryValue(job) <= range.max
  }

  predicate Keeps(filters: JobFilters, job: JobData)
  {
    && MatchesSearch(job, filters.search)
    && MatchesJobType(job, filters.jobTypes)
    && MatchesLocation(job, filters.locations)
    && MatchesRemote(job, filters.isRemote)
    && MatchesSalary(job, filters.salaryRange)
  }

  function KeepsFn(filters: JobFilters): JobData -> bool
  {
    (job: JobData) => Keeps(filters, job)
  }

  /** `filterJobs`: the jobs meeting every active criterion, in their original order. */
  function FilterJobs(jobs: seq<JobData>, filters: JobFilters): (r: seq<JobData>)
    ensures |r| <= |jobs|
    ensures forall job :: job in r ==> job in jobs && Keeps(filters, job)
    ensures forall i :: 0 <= i < |jobs| && Keeps(filters, jobs[i]) ==> jobs[i] in r
    ensures forall job :: multiset(r)[job] == if Keeps(filters, job) then multiset(jobs)[job] else 0
  {
    var r := Filter(jobs, KeepsFn(filters));
    forall job
      ensures multiset(r)[job] == if Keeps(filters, job) then multiset(jobs)[job] else 0
    {
      FilterCount(jobs, KeepsFn(filters), job);
    }
    r
  }

  /**
   * Filtering never reorders: the jobs kept from a concatenation are the
   * jobs kept from the first part followed by those kept from the second.
   */
  lemma FilterJobsConcat(a: seq<JobData>, b: seq<JobData>, filters: JobFilters)
    ensures FilterJobs(a + b, filters) == FilterJobs(a, filters) + FilterJobs(b, filters)
  {
    FilterConcat(a, b, KeepsFn(filters));
  }

  /** The filters `clearAllFilters` installs. */
  const DefaultFilters: JobFilters := JobFilters("", [], [], SalaryRange(0.0, NoMaxSalary), None)

  /** With the default filters every job is kept, in order. */
  lemma DefaultFiltersKeepAll(jobs: seq<JobData>)
    ensures FilterJobs(jobs, DefaultFilters) == jobs
  {
    FilterKeepsAll(jobs, KeepsFn(DefaultFilters));
  }

  /** Under an active salary range, a job with a salary passes exactly when it lies in the range. */
  lemma SalaryRangeRule(job: JobData, range: SalaryRange)
    requires SalaryFilterActive(range) && SalaryValue(job) != 0.0
    ensures MatchesSalary(job, range) <==> range.min <= SalaryValue(job) <= range.max
  {
  }

  // ---------------------------------------------------------------------------
  // Sorting
  // ---------------------------------------------------------------------------

  datatype SortOption = ByTitle | ByCompany | SalaryHigh | SalaryLow | ByDate

  predicate Dated(job: JobData)
  {
    Truthy(job.postedAt)
  }

  /**
   * The 'date' comparator as a "may come first" relation: dated jobs newest
   * first, dated before undated, undated by job key descending.
   */
  function DateOrder(localeLe: (string, string) -> bool, ts: string -> int): (JobData, JobData) -> bool
  {
    (a: JobData, b: JobData) =>
      if Dated(a) && Dated(b) then ts(b.postedAt.value) <= ts(a.postedAt.value)
      else if Dated(a) then true
      else if Dated(b) then false
      else localeLe(b.jobKey, a.jobKey)
  }

  lemma DateOrderTotal(localeLe: (string, string) -> bool, ts: string -> int)
    requires TotalPreorder(localeLe)
    ensures TotalPreorder(DateOrder(localeLe, ts))
  {
    var le := DateOrder(localeLe, ts);
    forall a, b, c | le(a, b) && le(b, c) ensures le(a, c) {
      if !Dated(a) && !Dated(b) && !Dated(c) {
        assert localeLe(c.jobKey, b.jobKey) && localeLe(b.jobKey, a.jobKey);
      }
    }
    forall a, b ensures le(a, b) || le(b, a) {
      if !Dated(a) && !Dated(b) {
        assert localeLe(a.jobKey, b.jobKey) || localeLe(b.jobKey, a.jobKey);
      }
    }
  }

  function TitleOf(job: JobData): string { job.title }

  function CompanyOf(job: JobData): string { OrElse(job.companyName, "") }

  /** The comparator each sort option uses. */
  function JobOrder(sortBy: SortOption, localeLe: (string, string) -> bool, ts: string -> int): (JobData, JobData) -> bool
  {
    match sortBy
    case ByTitle => On(localeLe, TitleOf)
    case ByCompany => On(localeLe, CompanyOf)
    case SalaryHigh => ByRealKeyDesc(SalaryValue)
    case SalaryLow => ByRealKey(SalaryValue)
    case ByDate => DateOrder(localeLe, ts)
  }

  lemma JobOrderTotal(sortBy: SortOption, localeLe: (string, string) -> bool, ts: string -> int)
    requires TotalPreorder(localeLe)
    ensures TotalPreorder(JobOrder(sortBy, localeLe, ts))
  {
    match sortBy
    case ByTitle => OnTotal(localeLe, TitleOf);
    case ByCompany => OnTotal(localeLe, CompanyOf);
    case SalaryHigh => ByRealKeyTotal(SalaryValue);
    case SalaryLow => ByRealKeyTotal(SalaryValue);
    case ByDate => DateOrderTotal(localeLe, ts);
  }

  /** `sortJobs`: a sorted copy; the input is left as it was. */
  function SortJobs(jobs: seq<JobData>, sortBy: SortOption, localeLe: (string, string) -> bool, ts: string -> int): (r: seq<JobData>)
    requires TotalPreorder(localeLe)
    ensures multiset(r) == multiset(jobs) && |r| == |jobs|
    ensures sortBy == SalaryHigh ==> forall i, j :: 0 <= i < j < |r| ==> SalaryValue(r[j]) <= SalaryValue(r[i])
    ensures sortBy == SalaryLow ==> forall i, j :: 0 <= i < j < |r| ==> SalaryValue(r[i]) <= SalaryValue(r[j])
    ensures sortBy == ByTitle ==> forall i, j :: 0 <= i < j < |r| ==> localeLe(r[i].title, r[j].title)
    ensures sortBy == ByCompany ==> forall i, j :: 0 <= i < j < |r| ==> localeLe(CompanyOf(r[i]), CompanyOf(r[j]))
  {
    JobOrderTotal(sortBy, localeLe, ts);
    var r := Sort(jobs, JobOrder(sortBy, localeLe, ts));
    assert SortedBy(r, JobOrder(sortBy, localeLe, ts));
    r
  }

  /**
   * The 'date' order: dated jobs come before undated ones, dated jobs are
   * newest first, and undated jobs are by job key descending.
   */
  lemma DateSortOrder(jobs: seq<JobData>, localeLe: (string, string) -> bool, ts: string -> int, i: nat, j: nat)
    requires TotalPreorder(localeLe)
    requires i < j < |jobs|
    ensures var r := SortJobs(jobs, ByDate, localeLe, ts);
      && (Dated(r[j]) ==> Dated(r[i]))
      && (Dated(r[i]) && Dated(r[j]) ==> ts(r[j].postedAt.value) <= ts(r[i].postedAt.value))
      && (!Dated(r[i]) && !Dated(r[j]) ==> localeLe(r[j].jobKey, r[i].jobKey))
  {
    var r := SortJobs(jobs, ByDate, localeLe, ts);
    JobOrderTotal(ByDate, localeLe, ts);
    assert r == Sort(jobs, DateOrder(localeLe, ts));
    assert DateOrder(localeLe, ts)(r[i], r[j]);
  }

  // ---------------------------------------------------------------------------
  // Filter options
  // ---------------------------------------------------------------------------

  function AllJobTypes(jobs: seq<JobData>): (r: seq<string>)
    ensures forall i, t :: 0 <= i < |jobs| && t in jobs[i].jobType ==> t in r
    ensures forall t :: t in r ==> exists i :: 0 <= i < |jobs| && t in jobs[i].jobType
  {
    var types := seq(|jobs|, i requires 0 <= i < |jobs| => jobs[i].jobType);
    assert forall i :: 0 <= i < |jobs| ==> types[i] == jobs[i].jobType;
    Flatten(types)
  }

  function AllCities(jobs: seq<JobData>): (r: seq<string>)
    ensures |r| == |jobs| && forall i :: 0 <= i < |jobs| ==> r[i] == jobs[i].location.city
  {
    seq(|jobs|, i requires 0 <= i < |jobs| => jobs[i].location.city)
  }

  datatype FilterOptions = FilterOptions(jobTypes: seq<string>, locations: seq<string>)

  /** `extractFilterOptions`: every job type and every city, each once, ascending. */
  function ExtractFilterOptions(jobs: seq<JobData>): (r: FilterOptions)
    ensures Distinct(r.jobTypes) && SortedBy(r.jobTypes, StrLe)
    ensures Distinct(r.locations) && SortedBy(r.locations, StrLe)
    ensures forall i, t :: 0 <= i < |jobs| && t in jobs[i].jobType ==> t in r.jobTypes
    ensures forall t :: t in r.jobTypes ==> exists i :: 0 <= i < |jobs| && t in jobs[i].jobType
    ensures forall i :: 0 <= i < |jobs| ==> jobs[i].location.city in r.locations
    ensures forall c :: c in r.locations ==> exists i :: 0 <= i < |jobs| && jobs[i].location.city == c
  {
    FilterOptions(SortedDistinct(AllJobTypes(jobs)), SortedDistinct(AllCities(jobs)))
  }
}
