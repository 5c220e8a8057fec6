/**
 * `POST /api/resources/google-drive-sync`: a per-client cooldown, the
 * conversion of each listed Drive file into a resource, and the merge that
 * keeps every non-Drive resource, replaces all Drive ones and sorts newest
 * first. The clock, the environment, the Drive listing and the file system
 * are parameters; `ts` stands for `new Date(s).getTime()` and `formatSize`
 * for `formatFileSize(parseInt(size || '0'))`.
 */
module DriveSync {
  import opened Wrappers
  import opened Seqs
  import opened Strings
  import opened Sorting
  import opened Types
  import opened DriveNames
  import Dates

  const CooldownMs: int := 60000

  /** The metadata the Drive listing returns for a file. */
  datatype DriveFile = DriveFile(
    id: string,
    name: Option<string>,
    mimeType: Option<string>,
    size: Option<string>,
    modifiedTime: Option<string>,
    webViewLink: Option<string>,
    webContentLink: Option<string>,
    description: Option<string>)

  /** The resource a Drive file becomes. */
  function ToResource(file: DriveFile, nowIso: string, formatSize: Option<string> -> string): (r: Resource)
    ensures r.id == "gdrive-" + file.id && r.source == Some(GoogleDrive)
    ensures r.category == DetermineCategory(OrElse(file.mimeType, ""), OrElse(file.name, ""))
    ensures r.title == CleanFileName(OrElse(file.name, "Untitled"))
    ensures Truthy(file.description) ==> r.description == file.description.value
    ensures !Truthy(file.description) ==> r.description == GenerateDescription(OrElse(file.name, ""), r.category)
    ensures r.uploadedAt == if Truthy(file.modifiedTime) then file.modifiedTime.value else nowIso
    ensures r.downloadUrl == Some(if Truthy(file.webContentLink) then file.webContentLink.value
                                  else if Truthy(file.webViewLink) then file.webViewLink.value else "")
    ensures r.tags == ExtractTagsFromFileName(OrElse(file.name, ""))
    ensures r.fileType == GetFileExtension(OrElse(file.name, ""))
    ensures r.fileSize == Some(formatSize(file.size)) && r.author == Some("Google Drive")
    ensures r.embedUrl.None? && r.course.None? && r.lastModified.None?
  {
    var name := OrElse(file.name, "");
    var category := DetermineCategory(OrElse(file.mimeType, ""), name);
    Resource(
      id := "gdrive-" + file.id,
      title := CleanFileName(OrElse(file.name, "Untitled")),
      description := OrElse(file.description, GenerateDescription(name, category)),
      category := category,
      tags := ExtractTagsFromFileName(name),
      fileType := GetFileExtension(name),
      fileSize := Some(formatSize(file.size)),
      downloadUrl := Some(OrElse(file.webContentLink, OrElse(file.webViewLink, ""))),
      embedUrl := None,
      author := Some("Google Drive"),
      course := None,
      uploadedAt := OrElse(file.modifiedTime, nowIso),
      lastModified := None,
      source := Some(GoogleDrive))
  }

  /** Every tag on a Drive resource was found in its file name by one of the tag rules. */
  lemma ResourceTagsFromName(file: DriveFile, nowIso: string, formatSize: Option<string> -> string, t: string)
    requires t in ToResource(file, nowIso, formatSize).tags
    ensures var name := Lower(OrElse(file.name, ""));
      (t in Keywords && KeywordFound(name, t)) || t in CourseTag(name) || t in YearTag(name) || t in CategoryTags(name)
  {
    TagOrigins(OrElse(file.name, ""), t);
  }

  function ToResources(files: seq<DriveFile>, nowIso: string, formatSize: Option<string> -> string): (r: seq<Resource>)
    ensures |r| == |files|
    ensures forall i :: 0 <= i < |files| ==> r[i] == ToResource(files[i], nowIso, formatSize)
  {
    seq(|files|, i requires 0 <= i < |files| => ToResource(files[i], nowIso, formatSize))
  }

  /** A resource is from Drive exactly when its `source` is 'google-drive'; a missing source counts as manual. */
  predicate FromDrive(r: Resource)
  {
    r.source == Some(GoogleDrive)
  }

  predicate NotFromDrive(r: Resource)
  {
    !FromDrive(r)
  }

  function NewestFirst(ts: string -> int): (Resource, Resource) -> bool
  {
    ByKeyDesc((r: Resource) => ts(r.uploadedAt))
  }

  datatype DriveStats = DriveStats(driveResources: nat, manualResources: nat, totalResources: nat)

  datatype DriveMerge = DriveMerge(resources: seq<Resource>, stats: DriveStats)

  /** The merged resource list and the reported counts. */
  function MergeResources(existing: seq<Resource>, files: seq<DriveFile>, nowIso: string,
                          formatSize: Option<string> -> string, ts: string -> int): (r: DriveMerge)
    ensures multiset(r.resources) == multiset(Filter(existing, NotFromDrive)) + multiset(ToResources(files, nowIso, formatSize))
    ensures forall i, j :: 0 <= i < j < |r.resources| ==> ts(r.resources[j].uploadedAt) <= ts(r.resources[i].uploadedAt)
    ensures r.stats.totalResources == |r.resources| == r.stats.driveResources + r.stats.manualResources
    ensures r.stats.driveResources == |files|
  {
    var manual := Filter(existing, NotFromDrive);
    var drive := ToResources(files, nowIso, formatSize);
    ByKeyTotal((r: Resource) => ts(r.uploadedAt));
    var merged := Sort(manual + drive, NewestFirst(ts));
    DriveMerge(merged, DriveStats(|drive|, |manual|, |merged|))
  }

  /** Every converted file is a Drive resource. */
  lemma ToResourcesFromDrive(files: seq<DriveFile>, nowIso: string, formatSize: Option<string> -> string)
    ensures forall r :: r in ToResources(files, nowIso, formatSize) ==> FromDrive(r)
  {
  }

  /** Splitting a permutation of `manual + drive` back into its two sides. */
  lemma SidesOfMerge(out: seq<Resource>, manual: seq<Resource>, drive: seq<Resource>)
    requires multiset(out) == multiset(manual + drive)
    requires forall r :: r in manual ==> NotFromDrive(r)
    requires forall r :: r in drive ==> FromDrive(r)
    ensures multiset(Filter(out, NotFromDrive)) == multiset(manual)
    ensures multiset(Filter(out, FromDrive)) == multiset(drive)
  {
    FilterLeftSide(out, manual, drive, NotFromDrive);
    assert multiset(manual + drive) == multiset(drive + manual);
    FilterLeftSide(out, drive, manual, FromDrive);
  }

  /**
   * Every non-Drive resource survives the merge unchanged, with its
   * multiplicity, and the Drive entries of the result are exactly one
   * converted resource per listed file.
   */
  lemma MergeSides(existing: seq<Resource>, files: seq<DriveFile>, nowIso: string,
                   formatSize: Option<string> -> string, ts: string -> int)
    ensures var out := MergeResources(existing, files, nowIso, formatSize, ts).resources;
      multiset(Filter(out, NotFromDrive)) == multiset(Filter(existing, NotFromDrive)) &&
      multiset(Filter(out, FromDrive)) == multiset(ToResources(files, nowIso, formatSize))
  {
    var manual := Filter(existing, NotFromDrive);
    var drive := ToResources(files, nowIso, formatSize);
    var out := MergeResources(existing, files, nowIso, formatSize, ts).resources;
    ToResourcesFromDrive(files, nowIso, formatSize);
    SidesOfMerge(out, manual, drive);
  }

  /**
   * Syncing the same listing twice gives the identical list as syncing it
   * once: the kept non-Drive resources and the regenerated Drive ones sort
   * back into the same order.
   */
  lemma MergeIdempotent(existing: seq<Resource>, files: seq<DriveFile>, nowIso: string,
                        formatSize: Option<string> -> string, ts: string -> int)
    ensures var once := MergeResources(existing, files, nowIso, formatSize, ts).resources;
      MergeResources(once, files, nowIso, formatSize, ts).resources == once
  {
    var le := NewestFirst(ts);
    ByKeyTotal((r: Resource) => ts(r.uploadedAt));
    var manual := Filter(existing, NotFromDrive);
    var drive := ToResources(files, nowIso, formatSize);
    ToResourcesFromDrive(files, nowIso, formatSize);
    var once := Sort(manual + drive, le);
    assert MergeResources(existing, files, nowIso, formatSize, ts).resources == once;
    ResortSides(manual, drive, drive, NotFromDrive, le);
  }

  // ---------------------------------------------------------------------------
  // The route
  // ---------------------------------------------------------------------------

  datatype DriveEnv = DriveEnv(folderId: Option<string>, serviceAccountKey: Option<string>)

  /** What listing the folder gives: the `files` field (possibly absent), or an error message. */
  datatype Listing = Listed(files: Option<seq<DriveFile>>) | ListError(message: string)

  /** What reading `resources.json` gives: its `resources` array, or an error message. */
  datatype StoredResources = Loaded(resources: seq<Resource>) | LoadError(message: string)

  datatype DriveResponse =
    | CoolingDown(seconds: int)
    | ConfigMissing
    | BadCredentials
    | AuthFailed
    | FolderNotFound
    | Failed(message: string)
    | DriveSynced(stats: DriveStats)

  datatype DriveOutcome = DriveOutcome(response: DriveResponse, cooldown: map<string, int>, written: Option<seq<Resource>>)

  /** The response for an error caught by the handler, chosen by what its message contains. */
  function ErrorResponse(message: string): (r: DriveResponse)
    ensures r.AuthFailed? <==> Contains(message, "invalid_grant")
    ensures r.FolderNotFound? <==> !Contains(message, "invalid_grant") && Contains(message, "Folder not found")
    ensures r.Failed? ==> r.message != ""
    ensures !Contains(message, "invalid_grant") && !Contains(message, "Folder not found") ==>
      r == Failed(if message == "" then "Failed to sync with Google Drive" else message)
  {
    if Contains(message, "invalid_grant") then AuthFailed
    else if Contains(message, "Folder not found") then FolderNotFound
    else Failed(if message == "" then "Failed to sync with Google Drive" else message)
  }

  /** The client key: the `x-forwarded-for` header, or "unknown". */
  function ClientKey(forwardedFor: Option<string>): string
  {
    OrElse(forwardedFor, "unknown")
  }

  /** A recorded time counts only when it is truthy, so a zero timestamp never blocks. */
  predicate CoolingDownAt(cooldown: map<string, int>, key: string, now: int)
  {
    key in cooldown && cooldown[key] != 0 && now - cooldown[key] < CooldownMs
  }

  /**
   * One request. `credentialsParse` says whether the service-account key is
   * valid JSON and `writeError` is the message of a failed write, if any.
   */
  function HandleDriveSync(
    cooldown: map<string, int>, now: int, nowIso: string, forwardedFor: Option<string>, env: DriveEnv,
    credentialsParse: bool, listing: Listing, stored: StoredResources, writeError: Option<string>,
    formatSize: Option<string> -> string, ts: string -> int): (r: DriveOutcome)
    ensures r.response.CoolingDown? <==> CoolingDownAt(cooldown, ClientKey(forwardedFor), now)
    ensures r.response.CoolingDown? ==> r.cooldown == cooldown && 1 <= r.response.seconds
    ensures !r.response.CoolingDown? ==> r.cooldown == cooldown[ClientKey(forwardedFor) := now]
    ensures r.response.DriveSynced? <==> r.written.Some?
    ensures r.response.DriveSynced? ==>
      Truthy(env.folderId) && Truthy(env.serviceAccountKey) && credentialsParse &&
      listing.Listed? && stored.Loaded? && writeError.None? &&
      r.written.value == MergeResources(stored.resources, listing.files.GetOr([]), nowIso, formatSize, ts).resources
    ensures r.response.CoolingDown? ==>
      var remaining := CooldownMs - (now - cooldown[ClientKey(forwardedFor)]);
      (r.response.seconds - 1) * 1000 < remaining <= r.response.seconds * 1000
    ensures !r.response.CoolingDown? ==>
      (r.response.ConfigMissing? <==> !Truthy(env.folderId) || !Truthy(env.serviceAccountKey))
    ensures !r.response.CoolingDown? && Truthy(env.folderId) && Truthy(env.serviceAccountKey) ==>
      (r.response.BadCredentials? <==> !credentialsParse)
    ensures !r.response.CoolingDown? && Truthy(env.folderId) && Truthy(env.serviceAccountKey) && credentialsParse ==>
      && (listing.ListError? ==> r.response == ErrorResponse(listing.message))
      && (listing.Listed? && stored.LoadError? ==> r.response == ErrorResponse(stored.message))
      && (listing.Listed? && stored.Loaded? && writeError.Some? ==> r.response == ErrorResponse(writeError.value))
      && (listing.Listed? && stored.Loaded? && writeError.None? ==>
            r.response == DriveSynced(MergeResources(stored.resources, listing.files.GetOr([]), nowIso, formatSize, ts).stats))
  {
    var key := ClientKey(forwardedFor);
    if CoolingDownAt(cooldown, key, now) then
      DriveOutcome(CoolingDown(Dates.CeilSeconds(CooldownMs - (now - cooldown[key]))), cooldown, None)
    else
      var recorded := cooldown[key := now];
      if !Truthy(env.folderId) || !Truthy(env.serviceAccountKey) then DriveOutcome(ConfigMissing, recorded, None)
      else if !credentialsParse then DriveOutcome(BadCredentials, recorded, None)
      else if listing.ListError? then DriveOutcome(ErrorResponse(listing.message), recorded, None)
      else if stored.LoadError? then DriveOutcome(ErrorResponse(stored.message), recorded, None)
      else
        var merged := MergeResources(stored.resources, listing.files.GetOr([]), nowIso, formatSize, ts);
        if writeError.Some? then DriveOutcome(ErrorResponse(writeError.value), recorded, None)
        else DriveOutcome(DriveSynced(merged.stats), recorded, Some(merged.resources))
  }

  /**
   * The cooldown starts before any configuration check: even a request that
   * fails for missing configuration blocks the same client for the next minute.
   */
  lemma FailedAttemptStartsCooldown(
    cooldown: map<string, int>, now: int, nowIso: string, forwardedFor: Option<string>, env: DriveEnv,
    credentialsParse: bool, listing: Listing, stored: StoredResources, writeError: Option<string>,
    formatSize: Option<string> -> string, ts: string -> int,
    later: int, env2: DriveEnv, credentialsParse2: bool, listing2: Listing, stored2: StoredResources, writeError2: Option<string>)
    requires !CoolingDownAt(cooldown, ClientKey(forwardedFor), now)
    requires now != 0 && now <= later < now + CooldownMs
    ensures var first := HandleDriveSync(cooldown, now, nowIso, forwardedFor, env, credentialsParse, listing, stored, writeError, formatSize, ts);
      HandleDriveSync(first.cooldown, later, nowIso, forwardedFor, env2, credentialsParse2, listing2, stored2, writeError2, formatSize, ts).response.CoolingDown?
  {
  }

  /** Clients are throttled independently: one client's request never changes another's entry. */
  lemma CooldownPerClient(
    cooldown: map<string, int>, now: int, nowIso: string, forwardedFor: Option<string>, env: DriveEnv,
    credentialsParse: bool, listing: Listing, stored: StoredResources, writeError: Option<string>,
    formatSize: Option<string> -> string, ts: string -> int, other: string)
    requires other != ClientKey(forwardedFor) && other in cooldown
    ensures var r := HandleDriveSync(cooldown, now, nowIso, forwardedFor, env, credentialsParse, listing, stored, writeError, formatSize, ts);
      other in r.cooldown && r.cooldown[other] == cooldown[other]
  {
  }
}
