# Colgate AI Club website: a Dafny model of its logic layer

The club's Next.js site serves news, events, projects, jobs and learning
resources. Most of the site is React rendering and I/O. Underneath sits a
layer of deterministic logic, and this project models that layer as pure
Dafny functions over immutable datatypes:

- the two sync reconcilers: the Google Calendar event merge and the Google
  Drive resource merge, with the Drive file-name classifiers;
- text derivation: RSVP links in event descriptions, Google event mapping,
  news keyword tags, GitHub repository URLs, YouTube embed links;
- the list pipelines: job mapping, filtering, sorting and filter options;
  clamped pagination; the filter, sort and slice steps of the resources,
  projects, news, events and home pages; the sitemap;
- small state machines driven by an explicit clock: the fixed-window rate
  limiters, the two sync cooldowns, the one-hour GitHub stats cache, the
  job-filter panel and the query-string updates of tag and pagination links;
- the two relative-time formatters.

Anything the code gets from outside is a parameter of the model:

| input | becomes |
|---|---|
| the clock | `now`, in milliseconds, and `nowIso` |
| parsing of ISO date strings | an uninterpreted `ts: string -> int` |
| fresh ids | lists of strings |
| fetch results, stored files, environment variables | datatypes |
| the validators `isValidEmail`, `isHttpUrl`, `isNonEmpty` | predicates on strings |
| `localeCompare` | an abstract total preorder `localeLe` |

Each route handler returns its response together with the next state:

- the rate-limit map;
- the cooldown map or `lastSyncTime`;
- the cache;
- the file contents it would write.

Modules follow the source files. Sequences model JavaScript arrays.

- `OrderedMap` is an insertion-ordered association list. It models a JS `Map`.
- `SearchParams` models `URLSearchParams` as a sequence of key/value pairs.
- `Sorting.Sort` is an insertion sort, and `Sorting.SortStable` proves it stable. It models the stable `Array.prototype.sort`.
- The fixed regular expressions are replaced by hand-written scanners:
  - the RSVP and URL patterns;
  - course codes and years;
  - the Link header's `rel="last"`;
  - the file-extension strip;
  - whitespace collapse.

The event reconciler reproduces one aliasing behaviour of the source. At
app/api/events/sync/route.ts:92 the preserved id is written into the shared
fetched record. So two stored calendar events with the same
`calendarEventId` come out as two copies of one record, and both carry the
id of the last of them. `EventSync.AliasedRefresh` proves this. With distinct
stored ids, each event keeps its own id; `EventSync.IdentityContinuity`
proves that case.

## Model

| member | source | states |
|---|---|---|
| OrderedMap.Get | lib/github.ts:29 | `get` finds a value exactly when the key is present, and the value found is stored under that key |
| OrderedMap.Put | lib/github.ts:147-150 | `set` keeps the key order when the key is present and appends the new key last otherwise |
| OrderedMap.PutWellFormed | lib/github.ts:147-150 | `set` keeps every key at most once |
| OrderedMap.PutGetSame | lib/github.ts:147-150 | after `set`, `get` of the key returns the new value |
| OrderedMap.PutGetOther | lib/github.ts:147-150 | `set` leaves `get` of every other key unchanged |
| OrderedMap.PutGet | lib/github.ts:147-150 | the three facts above together, as the cache relies on them |
| Sorting.SortStable | app/api/events/sync/route.ts:107-112 | sorting keeps each group of comparator-tied elements in its input order, as the stable `Array.prototype.sort` does |
| Sorting.SortedTiesDetermine | app/api/events/sync/route.ts:107-112 | two sorted lists whose tie groups hold the same elements in the same order are the same list |
| Sorting.SortByTies | app/api/events/sync/route.ts:107-112 | inputs whose tie groups agree sort to the same list |
| Sorting.ResortSides | app/api/resources/google-drive-sync/route.ts:95-102 | splitting a sorted merge by a predicate and sorting one side again together with a tie-equivalent replacement for the other gives the same sorted merge |
| Seqs.FilterCommute | app/api/resources/google-drive-sync/route.ts:96 | two filters give the same result in either order |
| Seqs.UniqueFilterOrder | lib/tags.ts:15-22 | in the distinct passing elements, an earlier one occurs in the input before any position of a later one |
| Seqs.FilterHead | app/news/page.tsx:36-39 | the head of a filter is the first element that passes it |
| EventSync.LookupMap | app/api/events/sync/route.ts:75-81 | the lookup map holds only fetched records, each under its own calendar id, and every fetched calendar event's id is a key |
| EventSync.LookupLastWins | app/api/events/sync/route.ts:76-81 | among fetched duplicates, the last record with a given calendar id is the one the map holds |
| EventSync.LookupDistinct | app/api/events/sync/route.ts:75-81 | with distinct fetched calendar ids, every fetched calendar event is found under its own id |
| EventSync.LastIdDistinct | app/api/events/sync/route.ts:87-95 | with distinct stored calendar ids, the id carried for a calendar id is that stored event's own id |
| EventSync.LastIdIgnoresNone | app/api/events/sync/route.ts:87-95 | once any stored event has the calendar id, the carried id does not depend on the default |
| EventSync.Refresh | app/api/events/sync/route.ts:87-95 | a refreshed stored event is a calendar event with the same calendar id |
| EventSync.Updated | app/api/events/sync/route.ts:83-97 | one updated record per stored calendar event still listed, and only for those |
| EventSync.Reconcile | app/api/events/sync/route.ts:71-141 | output is a permutation of manual + updated + new, ascending by start; manual counts the stored manual events, updated the stored calendar events the calendar still lists, added the fetched events under an unseen id, removed the stored calendar events whose id vanished; total = manual + updated + added, fromCalendar = updated + added, synced = fetched count |
| EventSync.InOutput | app/api/events/sync/route.ts:104-112 | an event is in the sorted output exactly when it is in the unsorted merge |
| EventSync.ManualEventsKept | app/api/events/sync/route.ts:72-73 | the manual events of the output are exactly the stored manual events, with multiplicity |
| EventSync.CalendarEventRefreshed | app/api/events/sync/route.ts:87-95 | a stored calendar event whose id is still fetched appears refreshed in the output |
| EventSync.IdentityContinuity | app/api/events/sync/route.ts:87-95 | with distinct stored calendar ids, the output holds the fetched record carrying the stored internal id |
| EventSync.AliasedRefresh | app/api/events/sync/route.ts:92 | two stored events with the same calendar id refresh to the same record, which reproduces the shared-object write |
| EventSync.OnlyListedIds | app/api/events/sync/route.ts:83-102 | every calendar event in the output has a calendar id that was fetched |
| EventSync.VanishedDropped | app/api/events/sync/route.ts:87-97 | a stored calendar event whose id is no longer fetched is not in the output |
| EventSync.NewEventAppended | app/api/events/sync/route.ts:99-102 | a fetched event whose calendar id no stored event has is in the output |
| EventSync.FetchedIdsCovered | app/api/events/sync/route.ts:83-105 | every fetched calendar id is represented in the merge |
| EventSync.RemovedCount | app/api/events/sync/route.ts:126-141 | removed equals the number of stored calendar events whose id vanished, i.e. stored calendar count minus updated |
| EventSync.UpdatedCanonical | app/api/events/sync/route.ts:87-95 | every updated record is the fetched record for a seen calendar id, carrying the id of the last stored event with that calendar id |
| EventSync.AddedCanonical | app/api/events/sync/route.ts:100-102 | every new record is the fetched record filed under its calendar id, and that id was not seen among the stored events |
| EventSync.MergedCanonical | app/api/events/sync/route.ts:83-105 | with distinct fetched ids, every merged calendar event is the fetched record under one internal id per calendar id |
| EventSync.ReconcileFixpoint | app/api/events/sync/route.ts:83-105 | reconciling a canonical list that covers every fetched id updates all of it, adds nothing and returns the same multiset |
| EventSync.ReconcileIdempotent | app/api/events/sync/route.ts:71-112 | with distinct fetched ids, re-reconciling the output with the same fetch returns the identical sorted list, with none added and none removed |
| EventSync.ReconcileSides | app/api/events/sync/route.ts:72-112 | the output is the sort of the stored manual events followed by calendar events only |
| EventSync.ResortOutput | app/api/events/sync/route.ts:104-112 | sorting the output's manual events followed by its calendar events gives the output back |
| Dates.CeilSeconds | app/api/events/sync/route.ts:31-32 | the reported wait is the remaining milliseconds rounded up to whole seconds; the Drive sync cooldown (app/api/resources/google-drive-sync/route.ts:21) reports its wait the same way |
| EventSyncRoute.StoredEvents | app/api/events/sync/route.ts:59-69 | a bare array is the event list, an object gives its events, anything else (missing, unreadable, no events) is empty |
| EventSyncRoute.HandleSync | app/api/events/sync/route.ts:21-154 | 429 exactly for a non-cron request within 60 s of the last success, reporting the remaining milliseconds rounded up to seconds; then 500 for missing config exactly when the calendar id or key is absent; then the sync fails exactly when the fetch or the write fails; otherwise the response carries the reconcile's stats and the trigger, and lastSyncTime advances only then |
| EventSyncRoute.ConfigCheckedBeforeFetch | app/api/events/sync/route.ts:43-54 | a missing calendar id or API key decides the response whatever the fetch and the stored file would have been, and nothing is synced |
| EventSyncRoute.CooldownAfterSync | app/api/events/sync/route.ts:29-40 | after a successful sync, a non-cron request within 60 s is refused and writes nothing |
| EventSyncRoute.CronBypassesCooldown | app/api/events/sync/route.ts:23-31 | a request carrying "Bearer " + the cron secret is never rate limited |
| DriveSync.ToResource | app/api/resources/google-drive-sync/route.ts:71-89 | id "gdrive-"+file id, Drive source, category and title from the classifiers, own description preferred over the generated one, modified time or now, content link or view link; tags from the file-name tag extractor, file type from the extension, the formatted size, author "Google Drive", and no embed URL, course or last-modified |
| DriveSync.ResourceTagsFromName | app/api/resources/google-drive-sync/route.ts:81 | every tag on a Drive resource was found in its file name by a keyword, course, year or category rule |
| DriveSync.ToResources | app/api/resources/google-drive-sync/route.ts:71-89 | one resource per listed file, in order |
| DriveSync.MergeResources | app/api/resources/google-drive-sync/route.ts:95-120 | output is a permutation of the non-Drive resources plus the regenerated Drive ones, newest first; drive + manual = total and drive = listed files |
| DriveSync.ToResourcesFromDrive | app/api/resources/google-drive-sync/route.ts:71-89 | every regenerated resource is marked as coming from Drive |
| DriveSync.MergeSides | app/api/resources/google-drive-sync/route.ts:95-102 | the non-Drive part of the output is exactly the stored non-Drive resources, and the Drive part is exactly the regenerated ones |
| DriveSync.MergeIdempotent | app/api/resources/google-drive-sync/route.ts:95-102 | merging the output again with the same listing returns the identical sorted list |
| DriveSync.ErrorResponse | app/api/resources/google-drive-sync/route.ts:122-145 | "invalid_grant" maps to the authentication error, otherwise "Folder not found" to the folder error, otherwise a failure carrying the message, or "Failed to sync with Google Drive" when it is empty |
| DriveSync.HandleDriveSync | app/api/resources/google-drive-sync/route.ts:7-146 | 429 exactly within 60 s of this client's last attempt, reporting the remaining milliseconds rounded up to seconds; every other attempt records the time first; then the config error exactly without folder id or key, the credentials error exactly when the key does not parse; a listing, read or write failure answers with that failure's error mapping; otherwise it writes the merge and reports its stats |
| DriveSync.FailedAttemptStartsCooldown | app/api/resources/google-drive-sync/route.ts:14-26 | any attempt past the cooldown check, failed or not, makes the same client's next request within 60 s cool down |
| DriveSync.CooldownPerClient | app/api/resources/google-drive-sync/route.ts:14-26 | a request never changes another client's cooldown entry |
| DriveNames.FirstNameRuleIsFirst | app/api/resources/google-drive-sync/route.ts:150-171 | the rule interpreter returns the category of the first matching rule, and none only when no rule matches |
| DriveNames.CategoryByRuleTable | app/api/resources/google-drive-sync/route.ts:150-181 | the category is the first matching file-name rule on the lowercased name, else the first matching MIME rule, else other |
| DriveNames.NameRulesIgnoreMime | app/api/resources/google-drive-sync/route.ts:150-171 | when a file-name rule matches, the MIME type does not affect the category |
| DriveNames.GetFileExtension | app/api/resources/google-drive-sync/route.ts:183-189 | a name with no dot has the extension "file" |
| DriveNames.ExtensionAfterLastDot | app/api/resources/google-drive-sync/route.ts:183-189 | for a name with a dot, the extension is the lowercased text after the last dot |
| DriveNames.StripExtension | app/api/resources/google-drive-sync/route.ts:194 | the trailing ".ext" is removed when there is one; otherwise the name is unchanged |
| DriveNames.SpaceSeparators | app/api/resources/google-drive-sync/route.ts:195-196 | every '_' and '-' becomes a space and nothing else changes |
| DriveNames.SeparatorsGone | app/api/resources/google-drive-sync/route.ts:195-196 | after the separator step no '_' or '-' is left |
| DriveNames.Collapse | app/api/resources/google-drive-sync/route.ts:197 | the non-space characters are kept in order, only plain single spaces remain, and the text starts with whitespace exactly when the input does |
| DriveNames.CollapseBetweenWords | app/api/resources/google-drive-sync/route.ts:197 | a whitespace run of any length between two words becomes exactly one space, the text on either side collapsing independently |
| DriveNames.TitleCase | app/api/resources/google-drive-sync/route.ts:200-202 | each character after a space or at the start is uppercased and the rest lowercased |
| DriveNames.CapitalizeJoin | app/api/resources/google-drive-sync/route.ts:200-202 | capitalising space-free words and joining them with spaces equals the title case of their join |
| DriveNames.CapitalizeWordsIsTitleCase | app/api/resources/google-drive-sync/route.ts:200-202 | splitting on spaces, capitalising each word and joining equals the character-wise title case |
| DriveNames.CleanFileNameShape | app/api/resources/google-drive-sync/route.ts:191-203 | the clean name has no '_' or '-', no leading, trailing or doubled spaces, and every word capitalised with the rest lowercased |
| DriveNames.CourseLengthAt | app/api/resources/google-drive-sync/route.ts:228-231 | a course code at a position is two to four letters, an optional whitespace character and three digits; its length is that of the first shape to match in the backtracking order 4+space, 4, 3+space, 3, 2+space, 2 |
| DriveNames.CourseTag | app/api/resources/google-drive-sync/route.ts:228-231 | at most one course tag, present exactly when some position holds a course code; the tag is the uppercased code at the leftmost such position |
| DriveNames.YearTag | app/api/resources/google-drive-sync/route.ts:234-237 | at most one year tag, present exactly when the name holds "20dd"; the tag is the leftmost such occurrence |
| DriveNames.CategoryTags | app/api/resources/google-drive-sync/route.ts:240-243 | each category tag is present exactly when one of its trigger words occurs in the name |
| DriveNames.FirstDistinct | app/api/resources/google-drive-sync/route.ts:245 | the first n distinct candidates in first-occurrence order, or all of them when there are fewer |
| DriveNames.FirstDistinctKeepsEarliest | app/api/resources/google-drive-sync/route.ts:245 | a candidate first seen earlier is kept whenever a later one is |
| DriveNames.ExtractTagsFromFileName | app/api/resources/google-drive-sync/route.ts:205-246 | the first 10 distinct candidates of the lowercased name in Set insertion order (keywords, course code, year, category tags), or all of them when fewer |
| DriveNames.EarlierTagsKept | app/api/resources/google-drive-sync/route.ts:205-246 | a tag added to the Set earlier is kept whenever a later one is |
| DriveNames.TagOrigins | app/api/resources/google-drive-sync/route.ts:210-243 | every tag is a keyword that occurs (verbatim or with its first space removed), the course code, the year or a category tag |
| DriveNames.Describe | app/api/resources/google-drive-sync/route.ts:248-262 | each category's sentence is a fixed text before and after the name |
| DriveNames.GenerateDescription | app/api/resources/google-drive-sync/route.ts:248-262 | the description is the category's template around the clean file name |
| DriveNames.DescriptionsDistinguishCategories | app/api/resources/google-drive-sync/route.ts:248-262 | different categories give different descriptions of the same file |
| Calendar.SkipSpaces | lib/calendar.ts:96 | the optional whitespace after "RSVP:" is skipped up to the first non-space |
| Calendar.NonSpaceEnd | lib/calendar.ts:96 | a URL runs to the first whitespace or the end of the text |
| Calendar.UrlFrom | lib/calendar.ts:96-108 | the extracted URL is the whitespace-free run starting at the match |
| Calendar.FirstRsvp | lib/calendar.ts:95-101 | finds the leftmost "RSVP:" followed by a URL, or reports there is none |
| Calendar.FirstPlainUrl | lib/calendar.ts:103-109 | finds the leftmost http:// or https:// URL, or reports there is none |
| Calendar.ExtractRsvpUrl | lib/calendar.ts:90-112 | none for a missing or empty description, and otherwise none exactly when there is neither an RSVP URL nor any URL |
| Calendar.RsvpPreferred | lib/calendar.ts:95-101 | the URL after the first "RSVP:" is returned even if another URL comes earlier |
| Calendar.FirstUrlFallback | lib/calendar.ts:103-109 | without an RSVP label, the first plain URL is returned |
| Calendar.RsvpUrlShape | lib/calendar.ts:90-112 | any result is a substring of the description, has no whitespace and starts with an http(s) scheme |
| Calendar.MapGoogleEvent | lib/calendar.ts:64-82 | startsAt is dateTime, else date, else ""; endsAt follows the same fallback; title defaults to "Untitled Event"; calendarEventId is the Google id; rsvpUrl comes from the description |
| Calendar.MapGoogleEvents | lib/calendar.ts:64-82 | one mapped event per Google event, in order, each with its fresh id |
| Calendar.AllDayStartsOnDate | lib/calendar.ts:119-121 | an all-day event starts on its date; any other event with a start starts at its dateTime |
| Calendar.MappedEventsFromCalendar | lib/calendar.ts:64-82 | mapped events with non-empty Google ids count as calendar-sourced in the reconciler |
| NewsTags.TagsFrom | lib/tags.ts:12-22 | the first 5 (or fewer) of the distinct vocabulary tags found in the lowercased text, in vocabulary order; a found tag is missing only when 5 are already taken |
| NewsTags.TagsInVocabularyOrder | lib/tags.ts:15-22 | a found tag earlier in the vocabulary is kept whenever a later one is |
| NewsTags.TagsFollowVocabulary | lib/tags.ts:15-22 | of two returned tags, the earlier one occurs in the vocabulary before any position of the later one |
| NewsTags.NoTagsWithoutMatches | lib/tags.ts:15-22 | with no vocabulary entry in the text the result is empty |
| GitHub.PathParts | lib/github.ts:44 | the path segments are non-empty and contain no '/' |
| GitHub.StripGitSuffix | lib/github.ts:51 | one trailing ".git" is removed, and only that |
| GitHub.ParseGitHubUrl | lib/github.ts:37-56 | a result exists exactly for a parsed URL with host github.com and two or more segments; owner is the first segment, repo the second without ".git" |
| GitHub.RepoPathParts | lib/github.ts:44 | "/owner/repo" splits into exactly the two names |
| GitHub.StripAppendedGit | lib/github.ts:51 | stripping undoes appending ".git" |
| GitHub.ParseRepoUrl | lib/github.ts:37-56 | parsing https://github.com/owner/repo, with or without ".git", gives back owner and repo |
| GitHub.DigitsEnd | lib/github.ts:119 | the page number runs to the first non-digit |
| GitHub.LastPage | lib/github.ts:116-126 | a page number is read exactly when the Link header has a page=N entry marked rel="last"; it is the number spelled by the digits after the first such "page=" |
| GitHub.LastPageReadsNumber | lib/github.ts:116-126 | a header whose first rel="last" entry is page=N, after text free of `>; rel="last"` (GitHub's next/last form), reads back N |
| GitHub.ContributorCount | lib/github.ts:108-136 | the rel="last" page number when present, else the array length, else 0; 0 when the request failed |
| GitHub.ContributorCountFromHeader | lib/github.ts:116-126 | a successful response whose header ends its first rel="last" entry in page=N counts N contributors, whatever the body's length |
| GitHub.StatsFrom | lib/github.ts:138-145 | stars, forks and last update come from the repository response, the contributor count from the Link rule |
| GitHub.FetchRepoStats | lib/github.ts:64-158 | an entry younger than an hour is returned without fetching; otherwise stats exist exactly with a token and an OK response, and only then is the cache updated |
| GitHub.ServedFromCacheWithinHour | lib/github.ts:68-74 | a successful fetch is served from the cache for the next hour, whatever later responses would be |
| GitHub.FetchRepoStatsByUrl | lib/github.ts:165-175 | an unparseable URL gives no stats and no cache change; otherwise it fetches by owner and repo |
| GitHub.ClearCache | lib/github.ts:180-182 | the cleared cache has no entries |
| GitHub.GetCacheStats | lib/github.ts:187-192 | the size is the number of keys and the keys are listed in insertion order |
| Dates.TimeAgo | lib/date.ts:26-42 | "just now" exactly under one minute; otherwise the largest unit reached, with count ≥ 1 the floored quotient, never weeks |
| Dates.Phrase | lib/date.ts:33-41 | the text starts with the count and ends in " ago", with an "s" exactly when plural |
| Dates.PhraseReadsBack | lib/date.ts:33-41 | the phrase splits into three words: the count read back as a number, the unit's name with an optional "s", and "ago" |
| Dates.FormatTimeAgo | lib/date.ts:26-42 | "just now" exactly under one minute elapsed, future dates included; otherwise the count, the unit's name with "s" exactly when the count is not 1, and "ago" |
| Dates.UpcomingIsJustNow | lib/date.ts:22-31 | an upcoming date formats as "just now" |
| Dates.TimeAgoMonotone | lib/date.ts:26-42 | more elapsed time never shows an earlier unit or a smaller count |
| ProjectCard.RelativeTime | components/projects/ProjectCard.tsx:51-70 | the first unit from years to minutes with a positive count, with weeks, and "just now" under a minute |
| ProjectCard.FormatRelativeTime | components/projects/ProjectCard.tsx:51-70 | "just now" exactly under one minute; otherwise the count, the unit's name with "s" exactly when the count exceeds 1, and "ago" |
| ProjectCard.WeeksAndMonthsOfTheCard | components/projects/ProjectCard.tsx:55-68 | 10 days is one week and 360 to 364 days is 12 months |
| ProjectCard.CardAgreesWithTimeAgoBelowAWeek | components/projects/ProjectCard.tsx:51-70 | below a week the card's unit and count agree with the shared formatter |
| ProjectCard.ToolsDisplay | components/projects/ProjectCard.tsx:116-119 | the first 4 tools are shown, with "+N more" for the rest exactly when there are more than 4 |
| RateLimit.CheckRateLimit | app/api/newsletter/subscribe/route.ts:8-27 | a first or expired key starts a window of 1; otherwise allowed exactly below 10; a refusal changes nothing; other keys are untouched |
| RateLimit.CheckKeepsBounded | app/api/newsletter/subscribe/route.ts:16-26 | no key's count ever exceeds 10 |
| RateLimit.RunInWindow | app/api/newsletter/subscribe/route.ts:21-26 | inside an open window, requests are allowed until the count reaches 10 and refused after |
| RateLimit.AtMostTenPerWindow | app/api/newsletter/subscribe/route.ts:16-26 | of any requests within 60 s of a window's start, at most 10 are allowed |
| RateLimit.WindowResets | app/api/newsletter/subscribe/route.ts:16-19 | a request after the reset time starts a fresh window |
| Subscribe.ClientKey | app/api/newsletter/subscribe/route.ts:32 | the raw x-forwarded-for, else x-real-ip, else "unknown" |
| Subscribe.NormaliseEmail | app/api/newsletter/subscribe/route.ts:77 | the email with its leading and trailing whitespace cut off and then lowercased; the result has no spaces at either end and no upper-case letters |
| Subscribe.LowerTrimWindow | app/api/newsletter/subscribe/route.ts:77 | lowercasing the trimmed email is lowercasing a window of it with only whitespace outside |
| Subscribe.NormaliseEmailIdempotent | app/api/newsletter/subscribe/route.ts:77 | normalising twice is normalising once |
| Subscribe.HandleSubscribe | app/api/newsletter/subscribe/route.ts:29-119 | rate limit, JSON, email presence, email validity checked in order; forwarded exactly when all pass, with the normalised payload; success exactly when the webhook is OK; a null body or a failed webhook gives the 500 |
| Subscribe.RejectedNotForwarded | app/api/newsletter/subscribe/route.ts:33-66 | a rejected request is never forwarded |
| Contribute.ClientIp | app/api/contribute/route.ts:44-45 | the first comma-separated forwarded entry, trimmed, when non-empty; else x-real-ip; else "unknown" |
| Contribute.SingleForwardedAddress | app/api/contribute/route.ts:44-45 | a comma-joined list of forwarded addresses yields its first one |
| Contribute.TrimOpt | app/api/contribute/route.ts:82-89 | an optional field is trimmed when present and stays absent otherwise |
| Contribute.StoredItems | app/api/contribute/route.ts:92-100 | an unreadable queue file is the empty queue; a stored array is kept as it is |
| Contribute.HandleContribute | app/api/contribute/route.ts:42-115 | rate limit, body, honeypot, required fields, URL checked in order; exactly one trimmed record is appended after the unchanged queue exactly when all pass, the queue file is not non-array JSON and the write succeeds; an unparseable or null body, a non-array queue or a failed write gives the 500 |
| JobFilterPanel.UpdateFilters | components/jobs/JobFilters.tsx:41-43 | only the fields named in the update change |
| JobFilterPanel.EmptyUpdateIdentity | components/jobs/JobFilters.tsx:41-43 | an empty update leaves the filters as they were |
| JobFilterPanel.Toggle | components/jobs/JobFilters.tsx:45-49 | an absent value is appended; a present one is removed everywhere, keeping the others in order |
| JobFilterPanel.ToggleTwice | components/jobs/JobFilters.tsx:45-49 | toggling an absent value twice restores the list |
| JobFilterPanel.ToggleKeepsOthers | components/jobs/JobFilters.tsx:45-49 | toggling one value does not change whether another is selected |
| JobFilterPanel.ToggleJobTypeTwice | components/jobs/JobFilters.tsx:45-49 | toggling an absent job type twice restores the filters; one toggle changes only the job types |
| JobFilterPanel.ToggleLocationTwice | components/jobs/JobFilters.tsx:51-57 | toggling an absent location twice restores the filters; one toggle changes only the locations |
| JobFilterPanel.ClearAllFilters | components/jobs/JobFilters.tsx:59-76 | the cleared filters have an empty search, no types, levels or locations, no remote choice, the range 0 to 1000000 and date sorting, so they are inactive |
| JobFilterPanel.InactiveFiltersKeepAll | components/jobs/JobFilters.tsx:70-76 | inactive filters keep every job, in order |
| JobFilterPanel.ParsedOr | components/jobs/JobFilters.tsx:232 | an unparseable or zero input falls back to the default |
| JobFilterPanel.SetMinSalary | components/jobs/JobFilters.tsx:228-233 | only the minimum changes; a parsed non-zero value is stored, an unparseable or zero input stores 0 |
| JobFilterPanel.SetMaxSalary | components/jobs/JobFilters.tsx:244-249 | only the maximum changes; a parsed non-zero value is stored, an unparseable or zero input stores 1000000 |
| JobFilterPanel.MinSalaryReadBack | components/jobs/JobFilters.tsx:59-76 | a positive minimum reads back and makes the filters active, and emptying the input afterwards leaves the range with minimum 0 |
| JobFilterPanel.MaxSalaryReadBack | components/jobs/JobFilters.tsx:59-76 | a maximum between 0 and 1000000 reads back and makes the filters active, and emptying the input afterwards leaves the range with maximum 1000000 |
| JobFilterPanel.SalaryInputsIndependent | components/jobs/JobFilters.tsx:228-249 | the last write to an input wins, and the two inputs can be set in either order |
| JobFilterPanel.LocationButtons | components/jobs/JobFilters.tsx:194-213 | the first 15 locations are shown, with "+N more" exactly when there are more than 15 |
| Jobs.MapJobRow | lib/jobUtils.ts:7-43 | a missing job type becomes ["Full-time"], missing lists become empty, missing salaries 0; the short address is city + ", " + country; postedAt is the creation time |
| Jobs.AnyOccurs | lib/jobUtils.ts:48-53 | true exactly when some keyword occurs in the lowercased text |
| Jobs.SalaryValue | lib/jobUtils.ts:58-67 | 0 with no bounds, the midpoint with both, else the one set; always within the two bounds |
| Jobs.FilterJobs | lib/jobUtils.ts:72-122 | the kept jobs are exactly the input jobs meeting every active criterion, in input order, each with its input multiplicity |
| Jobs.FilterJobsConcat | lib/jobUtils.ts:72-122 | filtering two lists joined is joining their filtered lists, so the input order is kept |
| Jobs.DefaultFiltersKeepAll | lib/jobUtils.ts:72-122 | the default filters return the input unchanged |
| Jobs.SalaryRangeRule | lib/jobUtils.ts:111-119 | under an active range, a job with a salary passes exactly when it lies within the range |
| Jobs.DateOrderTotal | lib/jobUtils.ts:155-165 | the date comparator is a total preorder |
| Jobs.JobOrderTotal | lib/jobUtils.ts:127-167 | every sort option's comparator is a total preorder |
| Jobs.SortJobs | lib/jobUtils.ts:127-167 | a permutation of the input, ordered by the chosen option |
| Jobs.DateSortOrder | lib/jobUtils.ts:155-165 | dated jobs come first, newest first; undated jobs are by job key descending |
| Jobs.AllJobTypes | lib/jobUtils.ts:176-178 | the collected types are exactly the types of some job |
| Jobs.AllCities | lib/jobUtils.ts:180-181 | one city per job, in order |
| Jobs.ExtractFilterOptions | lib/jobUtils.ts:172-188 | job types and cities each distinct and ascending, holding exactly the types and cities of the jobs |
| Paginate.CeilDiv | lib/paginate.ts:2 | the page count is the least count covering the items |
| Paginate.Window | lib/paginate.ts:5-9 | the slice is the contiguous window from the start, full unless it reaches the end |
| Paginate.ClampPage | lib/paginate.ts:4 | the page is at least 1 and at most the page count when there are pages, and a page in range is kept |
| Paginate.PaginateArray | lib/paginate.ts:1-15 | total and page count are right; the clamped page's window starts at (page−1)·perPage and holds at most perPage items |
| Paginate.EmptyPagination | lib/paginate.ts:1-15 | empty input gives page 1, no pages and an empty slice |
| Paginate.PagesFromSuffix | lib/paginate.ts:5-9 | the pages from page k on are the items from (k−1)·perPage on |
| Paginate.PagesReconstruct | lib/paginate.ts:5-9 | concatenating every page's slice gives back the items |
| Paginate.PaginateParsed | app/news/page.tsx:36-44 | an unparseable page shows nothing; otherwise the clamped page of the items |
| SearchParams.Delete | components/common/Tag.tsx:27 | the name is absent afterwards |
| SearchParams.DeleteKeepsOthers | components/common/Tag.tsx:27 | deleting a name leaves the other pairs unchanged |
| SearchParams.Set | components/common/Tag.tsx:24 | the name has exactly the one new value afterwards |
| SearchParams.SetKeepsOthers | components/common/Tag.tsx:24 | setting a name leaves the other pairs unchanged |
| SearchParams.ReplaceFirst | components/common/Pagination.tsx:20 | replacing a present name leaves exactly the one new value |
| SearchParams.ReplaceKeepsOthers | components/common/Pagination.tsx:20 | replacing a name leaves the other pairs unchanged |
| SearchParams.Get | app/news/page.tsx:36-39 | a value is read exactly when the name is present, and it is the value of the first pair with that name |
| SearchParams.LeadingDigits | app/news/page.tsx:36 | parseInt reads the longest run of leading digits |
| SearchParams.ReadPage | app/news/page.tsx:36 | no or empty page parameter reads as 1; otherwise NaN (none) exactly when the value does not start with a digit, else the number its leading digits spell |
| SearchParams.LeadingDigitsOfNumber | components/common/Pagination.tsx:20 | a written page number reads back whole |
| SearchParams.Serialize | components/common/Tag.tsx:29 | no pairs gives the empty query |
| SearchParams.WithQuery | components/common/Tag.tsx:29 | the bare pathname when no parameters remain, else pathname?query |
| SearchParams.SerializeJoins | components/common/Tag.tsx:29 | the query is the "key=value" texts joined by "&" |
| SearchParams.PairRoundTrip | components/common/Tag.tsx:29 | a pair whose key has no '=' parses back from its text |
| SearchParams.ParseSerialize | components/common/Tag.tsx:29 | parsing the serialised query gives back the pairs, for keys and values without '&' and keys without '=' |
| TagLinks.TagClickParams | components/common/Tag.tsx:15-27 | after a click page is gone; a selected or "All" tag removes tag, any other sets it; every other parameter is unchanged |
| TagLinks.HandleClick | components/common/Tag.tsx:15-31 | the link is the bare pathname when no parameters remain, else pathname?query |
| TagLinks.SelectThenDeselect | components/common/Tag.tsx:15-27 | selecting and then deselecting a tag leaves neither tag nor page and the other parameters as they were |
| TagLinks.SelectedTagIsRead | components/common/Tag.tsx:18-25 | the page reads back the tag just selected |
| PaginationNav.PageParams | components/common/Pagination.tsx:15-21 | page 1 removes page, any other sets it; other parameters are unchanged |
| PaginationNav.CreatePageUrl | components/common/Pagination.tsx:15-23 | the bare pathname when no parameters remain, else pathname?query |
| PaginationNav.PageLinkReadsBack | components/common/Pagination.tsx:15-23 | a page link for page n reads back as page n |
| PaginationNav.Pagination | components/common/Pagination.tsx:25-55 | nothing with at most one page; previous exactly when page > 1 targeting page−1; next exactly when page < total targeting page+1 |
| VideoEmbed.WatchVideoId | components/resources/VideoModal.tsx:29-32 | an id exists exactly when "v=" occurs, and it contains neither "&" nor "v=" |
| VideoEmbed.ShortVideoId | components/resources/VideoModal.tsx:33-36 | an id exists exactly when "youtu.be/" occurs, and it contains no "?" |
| VideoEmbed.GetEmbedUrl | components/resources/VideoModal.tsx:28-38 | watch links embed their v= id (or "undefined"), else short links embed their id, else the URL is unchanged |
| VideoEmbed.WatchLinkEmbedsId | components/resources/VideoModal.tsx:29-32 | a watch link with id X followed by "&…" or nothing embeds X |
| VideoEmbed.ShortLinkEmbedsId | components/resources/VideoModal.tsx:33-36 | a short link with id X followed by "?…" or nothing embeds X |
| ResourcesPage.TagLists | app/resources/page.tsx:20-25 | one tag list per resource, in order |
| ResourcesPage.AllTags | app/resources/page.tsx:20-25 | the tags are distinct, ascending and exactly the tags of some resource |
| ResourcesPage.FilteredResources | app/resources/page.tsx:28-61 | exactly the resources meeting every active criterion, in the chosen date order |
| ResourcesPage.NoCriteriaKeepAll | app/resources/page.tsx:31-51 | with no active criteria every resource is kept |
| ResourcesPage.PageWindow | app/resources/page.tsx:63-70 | the page shows items [(p−1)·12, p·12) without clamping, empty past the end |
| ResourcesPage.TotalPages | app/resources/page.tsx:63-70 | the page count is the least count covering the items |
| ResourcesPage.RenderResources | app/resources/page.tsx:186-214 | controls exactly with more than one page; previous disabled at page 1; next disabled at the last page |
| ResourcesPage.WindowAgreesWithPaginate | app/resources/page.tsx:63-70 | for a page in range, the unclamped window equals the shared paginator's slice |
| NewsPage.SortedNews | app/news/page.tsx:30-32 | a permutation of the news, newest first |
| NewsPage.FilteredNews | app/news/page.tsx:39-41 | a non-empty tag keeps exactly the items having it; otherwise all are kept |
| NewsPage.NewsTagLists | app/news/page.tsx:47 | one tag list per item, in order |
| NewsPage.NewsTags | app/news/page.tsx:47 | the tag bar is distinct, ascending and exactly the tags of some item |
| NewsPage.RenderNews | app/news/page.tsx:30-47 | the tag bar covers all news; the shown page paginates the tag-filtered sorted news by 9 |
| NewsPage.TagBarIgnoresOrder | app/news/page.tsx:47 | the tag bar is the same whatever order the news come in |
| NewsPage.TagBarNeverEmpty | app/news/page.tsx:39-47 | choosing a tag from the bar never shows an empty list |
| NewsPage.TagClickShowsFirstPage | app/news/page.tsx:36-44 | clicking a tag shows page 1: the first 9 items with that tag |
| ProjectsPage.ListedProjects | app/projects/page.tsx:17-35 | exactly the projects meeting the type and level filters, ascending by title |
| ProjectsPage.RenderProjects | app/projects/page.tsx:17-37 | the page count covers the projects meeting the type and level filters, 9 per page; an unparseable page shows nothing; the shown projects (at most 9) all meet the filters and run in ascending title order; page 1 shows the first 9 listed |
| ProjectsPage.ShownWindow | app/projects/page.tsx:35-37 | a shown page holds at most 9 items of the sorted list, in its order, and page 1 is its head |
| ProjectsPage.NoParametersListAll | app/projects/page.tsx:26-33 | without parameters every project is listed |
| ProjectsPage.LinkParams | app/projects/page.tsx:58-65 | the link carries a type or level exactly when it is truthy |
| ProjectsPage.ProjectsQuery | app/projects/page.tsx:59-65 | the href is /projects?type=T&level=L, /projects?type=T or /projects?level=L as set |
| ProjectsPage.QueryTypeLevel | app/projects/page.tsx:64 | a type and a level give /projects?type=T&level=L |
| ProjectsPage.QueryType | app/projects/page.tsx:65 | a type alone gives /projects?type=T |
| ProjectsPage.QueryLevel | app/projects/page.tsx:60 | a level alone gives /projects?level=L |
| ProjectsPage.LinkParamsFalsy | app/projects/page.tsx:58-65 | an empty type or level is left out of the link |
| ProjectsPage.TypeLinkQuery | app/projects/page.tsx:59-65 | the 'all' link drops the type, other links set it, and the level is kept |
| ProjectsPage.LevelLinkQuery | app/projects/page.tsx:89-102 | level links keep the current type |
| ProjectsPage.TypeLinkLists | app/projects/page.tsx:17-65 | following a type link lists exactly the projects of that type at the kept level |
| EventsPage.EventsOf | app/events/page.tsx:9-14 | a bare array is the event list and an object supplies its events |
| EventsPage.LastSyncedAt | app/events/page.tsx:9-14 | only the object format has a last sync time |
| EventsPage.UpcomingSorted | app/events/page.tsx:16-18 | a permutation of the events strictly after now, ascending by start |
| EventsPage.Upcoming | app/events/page.tsx:16-19 | min(limit, upcoming count) events, all upcoming, ascending by start |
| EventsPage.UpcomingComplete | app/events/page.tsx:16-19 | an upcoming event is listed unless the list is full of events starting no later |
| EventsPage.EventsPageList | app/events/page.tsx:8-19 | the 6 earliest upcoming events, or all when fewer, from either format, ascending by start; an upcoming event left out starts no earlier than every listed one |
| EventsPage.FormatsAgree | app/events/page.tsx:9-14 | both stored formats list the same events |
| EventsPage.UpcomingPrefix | app/events/page.tsx:16-19 | a smaller limit gives a prefix of the larger list |
| HomePage.NewsRail | app/page.tsx:14-16 | at most 3 items, exactly 3 when there are, newest first, all from the news |
| HomePage.EventsRail | app/page.tsx:18-24 | the 3 earliest upcoming events, or all when fewer, from either format, ascending by start; an upcoming event left out starts no earlier than every listed one |
| HomePage.ProjectsRail | app/page.tsx:26-28 | at most 3 projects, exactly 3 when there are, ascending by title |
| HomePage.NewsRailLeadsNewsPage | app/page.tsx:14-16 | the news rail is the first 3 items of the news page's first page |
| HomePage.EventsRailLeadsEventsPage | app/page.tsx:18-24 | the events rail is the first 3 events of the events page |
| HomePage.ProjectsRailLeadsProjectsPage | app/page.tsx:26-28 | the projects rail is the first 3 of the unfiltered projects list |
| Sitemap.BaseUrl | app/sitemap.xml/route.ts:6 | the environment's base URL when set, else http://localhost:3000 |
| Sitemap.ProjectRoutes | app/sitemap.xml/route.ts:19 | one "/projects/slug" route per project, in data order |
| Sitemap.DatePart | app/sitemap.xml/route.ts:27 | lastmod is the ISO time's text before its first "T" |
| Sitemap.SitemapEntries | app/sitemap.xml/route.ts:9-29 | 7 static entries then one per project, each at base + route, all with today's date |
| Sitemap.StaticPriorities | app/sitemap.xml/route.ts:28-29 | the home page is weekly at 1.0; every other static page, "/projects" included, is monthly at 0.8 |
| Sitemap.ProjectPriorities | app/sitemap.xml/route.ts:28-29 | every project page is monthly at 0.7 |

## Left out

- I/O and plumbing: NextRequest/NextResponse, file reads and writes, Supabase, the Google Calendar and Drive clients, GitHub and n8n fetches. What a read or fetch returns is an input, whether a write succeeds is an input flag, and the content a handler writes is an output of the model.
- `formatFileSize` (app/api/resources/google-drive-sync/route.ts:264-270) uses floating-point `Math.log` and `Math.pow`. It is the parameter `formatSize`.
- ISO date parsing is the uninterpreted `ts`, and NaN timestamps are not modelled. `Date.now()` is one `now` per request.
- Locale formatting (`formatDate`, `toLocaleDateString`) is left out. `localeCompare` is an abstract total preorder.
- Dates.UnitName: no contract of its own; `Dates.FormatTimeAgo` and `ProjectCard.FormatRelativeTime` state the full phrase it builds.
- Case mapping covers ASCII letters only. JavaScript's full Unicode `toLowerCase`/`toUpperCase` is not modelled.
- Strings are sequences of code points, not UTF-16 units, so `.length` and default `.sort()` are modelled in code-point order.
- `new URL` and `URLSearchParams` are platform parsers. A URL arrives as a parsed hostname and path, or as unparseable, and query strings are key/value sequences.
- SearchParams.Get: the server pages read one value per query key. For a repeated key Next.js hands the page an array (`?tag=a&tag=b` gives `['a', 'b']`, which `item.tags?.includes` never matches, and `?page=&page=3` reads NaN from ",3"); the model reads the first value, as `URLSearchParams.get` does.
- Percent-encoding is not modelled. SearchParams.ParseSerialize therefore requires keys and values without '&' and keys without '='.
- SearchParams.ReadPage: `parseInt` reads leading digits only; leading whitespace and a sign are not modelled.
- The validators `isValidEmail`, `isHttpUrl` and `isNonEmpty` are not part of this model. They are predicate parameters.
- Random ids (`uuidv4`, `randomUUID`) arrive as parameters.
- Subscribe.HandleSubscribe: non-string `timestamp` or `source` values in the body are not modelled, and neither is the webhook's response text.
- Contribute.HandleContribute: body fields are strings or absent. A non-string honeypot value is not modelled (a truthy string rejects). A non-string `note` or `email`, or a non-string `title` or `url` that the validators let through, makes `.trim()` throw at route.ts:84-87 and answers 500; that path is not modelled.
- The stored-events file has only its JSON shapes modelled. Its text parsing is one of the inputs.
- JobFilterPanel.SetMinSalary: the `parseInt` of the input box is a parameter `parsed`, not a parse of the typed text.
- Jobs.FilterJobs: the search criterion uses the ASCII case mapping above.
- `hasActiveFilters`, `isUpcoming`, the projects page's "All is active" test and the sitemap's `ChangeFreq`/`Priority` are predicates or one-line choices without a contract of their own. Their behaviour is stated through ClearAllFilters, UpcomingIsJustNow, EventsPageList, StaticPriorities and ProjectPriorities.
- Further contract-free definitions, each stated through lemmas: DriveNames.DetermineCategory (app/api/resources/google-drive-sync/route.ts:150-181) through CategoryByRuleTable; DriveNames.CleanFileName (app/api/resources/google-drive-sync/route.ts:191-203) through CleanFileNameShape; Calendar.IsAllDayEvent (lib/calendar.ts:119-121) through AllDayStartsOnDate; DriveSync.ClientKey (app/api/resources/google-drive-sync/route.ts:14) through CooldownPerClient; EventSyncRoute.ExpectedAuth and EventSyncRoute.IsCron (app/api/events/sync/route.ts:24) through CronBypassesCooldown; Jobs.DateOrder (lib/jobUtils.ts:155-165) through DateSortOrder.
- `extractTags` wrapper: NewsTags.TagsFrom is stated for any vocabulary. That the fixed vocabulary lists are free of duplicates is not proved.
- The resources page's page-reset effect on filter changes is React state and is not modelled.
- The sitemap's XML text is not modelled; the entries are.
- `Array.prototype.sort` sorts the imported data in place. The model returns sorted copies.
- The ProjectCard GitHub fetch effect, the job modal's markdown converter, `isHtmlContent`, `debounce`, `fetchJobs`, the polling hook and the scripts are rendering, timers or I/O.
- Concurrency is not modelled: overlapping sync requests and interleaved file writes. The source takes no lock.
