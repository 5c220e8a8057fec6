/**
 * The records the site passes around, one datatype per TypeScript type.
 * Optional (`?:`) and nullable (`| null`) fields are `Option`s; numbers that
 * only ever hold whole milliseconds or counts are `int`, money is `real`.
 */
module Types {
  import opened Wrappers

  /** A club event, as stored in the events file and rendered on the events page. */
  datatype EventItem = EventItem(
    id: string,
    title: string,
    startsAt: string,
    endsAt: Option<string>,
    location: Option<string>,
    description: Option<string>,
    rsvpUrl: Option<string>,
    calendarEventId: Option<string>)

  /** The parts of a Google Calendar API event the site reads. */
  datatype EventTime = EventTime(dateTime: Option<string>, date: Option<string>)

  datatype GoogleCalendarEvent = GoogleCalendarEvent(
    id: string,
    summary: Option<string>,
    description: Option<string>,
    location: Option<string>,
    start: EventTime,
    end: EventTime)

  datatype ResourceCategory = Presentation | Document | Video | Template | Dataset | Code | Other

  datatype ResourceSource = Manual | GoogleDrive

  /** A learning resource shown on the resources page. */
  datatype Resource = Resource(
    id: string,
    title: string,
    description: string,
    category: ResourceCategory,
    tags: seq<string>,
    fileType: string,
    fileSize: Option<string>,
    downloadUrl: Option<string>,
    embedUrl: Option<string>,
    author: Option<string>,
    course: Option<string>,
    uploadedAt: string,
    lastModified: Option<string>,
    source: Option<ResourceSource>)

  datatype NewsSourceType = Club | External

  datatype NewsItem = NewsItem(
    id: string,
    title: string,
    summary: Option<string>,
    content: Option<string>,
    sourceType: NewsSourceType,
    url: string,
    tags: Option<seq<string>>,
    publishedAt: string)

  datatype Level = Beginner | Intermediate | Advanced

  datatype ProjectType = CodeProject | NoCode | Hybrid

  datatype ProjectItem = ProjectItem(
    id: string,
    slug: string,
    title: string,
    level: Level,
    projectType: ProjectType,
    tools: seq<string>,
    summary: string,
    repoUrl: Option<string>)

  datatype Severity = Required | Preferred

  datatype Requirement = Requirement(text: string, severity: Severity)

  datatype JobLocation = JobLocation(
    city: string,
    postalCode: Option<string>,
    country: string,
    countryCode: string,
    formattedAddressLong: string,
    formattedAddressShort: string,
    latitude: real,
    longitude: real,
    streetAddress: Option<string>,
    fullAddress: string)

  datatype Salary = Salary(
    salaryCurrency: string,
    salaryMax: real,
    salaryMin: real,
    salarySource: string,
    salaryText: string,
    salaryType: string)

  /** A job listing as the jobs page sees it. */
  datatype JobData = JobData(
    jobKey: string,
    title: string,
    companyName: Option<string>,
    jobType: seq<string>,
    descriptionText: string,
    companyUrl: Option<string>,
    location: JobLocation,
    salary: Salary,
    benefits: seq<string>,
    attributes: seq<string>,
    jobUrl: string,
    applyUrl: string,
    requirements: seq<Requirement>,
    jobCardSummary: string,
    postedAt: Option<string>)

  /** A row of the jobs table; `None` is SQL `null`. */
  datatype JobRow = JobRow(
    jobKey: string,
    title: string,
    companyName: Option<string>,
    jobType: Option<seq<string>>,
    benefits: Option<seq<string>>,
    attributes: Option<seq<string>>,
    descriptionText: string,
    jobCardSummary: string,
    companyUrl: Option<string>,
    jobUrl: string,
    applyUrl: string,
    locationCity: string,
    locationPostalCode: Option<string>,
    locationCountry: string,
    locationCountryCode: string,
    locationFullAddress: string,
    salaryCurrency: string,
    salaryMax: Option<real>,
    salaryMin: Option<real>,
    salaryText: string,
    salaryType: string,
    requirements: Option<seq<Requirement>>,
    status: string,
    createdAt: string,
    updatedAt: string)
}
