/**
 * The request handling around the calendar merge: the global cooldown with
 * its cron bypass, the configuration check, the tolerant reading of the
 * stored events file, and the bookkeeping of the last successful sync.
 * The clock, the environment, the calendar fetch and the file system are
 * parameters.
 */
module EventSyncRoute {
  import opened Wrappers
  import opened Types
  import opened EventSync
  import Dates

  const SyncCooldownMs: int := 60000

  /** The template `Bearer ${CRON_SECRET}` renders an unset secret as "undefined". */
  function ExpectedAuth(cronSecret: Option<string>): string
  {
    "Bearer " + (if cronSecret.Some? then cronSecret.value else "undefined")
  }

  /** A request counts as the scheduled cron job exactly when its authorization header is the expected one. */
  predicate IsCron(authHeader: Option<string>, cronSecret: Option<string>)
  {
    authHeader == Some(ExpectedAuth(cronSecret))
  }

  /** What reading and parsing the events file can produce. */
  datatype StoredFile =
    | Unreadable
    | Unparseable
    | BareArray(list: seq<EventItem>)
    | Wrapped(events: Option<seq<EventItem>>)

  /** The stored events: a bare array is taken as is, a wrapper's `events` or `[]`, and any failure is `[]`. */
  function StoredEvents(f: StoredFile): (r: seq<EventItem>)
    ensures f.BareArray? ==> r == f.list
    ensures f.Wrapped? && f.events.Some? ==> r == f.events.value
    ensures !f.BareArray? && !(f.Wrapped? && f.events.Some?) ==> r == []
  {
    match f
    case BareArray(list) => list
    case Wrapped(events) => if events.Some? then events.value else []
    case _ => []
  }

  datatype Env = Env(cronSecret: Option<string>, calendarId: Option<string>, apiKey: Option<string>)

  datatype FetchOutcome = Fetched(events: seq<EventItem>) | FetchFailed

  datatype SyncResponse =
    | RateLimited(waitSeconds: int)
    | MissingConfig
    | SyncFailed
    | Synced(stats: SyncStats, byCron: bool)

  /** The response, the new `lastSyncTime`, and what was written to the events file. */
  datatype SyncOutcome = SyncOutcome(response: SyncResponse, lastSyncTime: int, written: Option<seq<EventItem>>)

  /** One `POST /api/events/sync`; `writeOk` says whether writing the file succeeded. */
  function HandleSync(
    lastSyncTime: int, now: int, authHeader: Option<string>, env: Env,
    fetch: FetchOutcome, file: StoredFile, writeOk: bool, ts: string -> int): (r: SyncOutcome)
    ensures r.response.RateLimited? <==> !IsCron(authHeader, env.cronSecret) && now - lastSyncTime < SyncCooldownMs
    ensures r.response.RateLimited? ==>
      r.response.waitSeconds >= 1 && (now >= lastSyncTime ==> r.response.waitSeconds <= 60)
    ensures r.response.Synced? <==> r.written.Some?
    ensures r.lastSyncTime == if r.response.Synced? then now else lastSyncTime
    ensures r.response.Synced? ==>
      Truthy(env.calendarId) && Truthy(env.apiKey) && fetch.Fetched? && writeOk &&
      r.written.value == Reconcile(StoredEvents(file), fetch.events, ts).events
    ensures r.response.Synced? ==> r.response.byCron == IsCron(authHeader, env.cronSecret)
    ensures r.response.RateLimited? ==>
      var remaining := SyncCooldownMs - (now - lastSyncTime);
      (r.response.waitSeconds - 1) * 1000 < remaining <= r.response.waitSeconds * 1000
    ensures !r.response.RateLimited? ==>
      (r.response.MissingConfig? <==> !Truthy(env.calendarId) || !Truthy(env.apiKey))
    ensures !r.response.RateLimited? && Truthy(env.calendarId) && Truthy(env.apiKey) ==>
      (r.response.SyncFailed? <==> fetch.FetchFailed? || !writeOk)
    ensures !r.response.RateLimited? && Truthy(env.calendarId) && Truthy(env.apiKey) && fetch.Fetched? && writeOk ==>
      r.response == Synced(Reconcile(StoredEvents(file), fetch.events, ts).stats, IsCron(authHeader, env.cronSecret))
  {
    var cron := IsCron(authHeader, env.cronSecret);
    if !cron && now - lastSyncTime < SyncCooldownMs then
      SyncOutcome(RateLimited(Dates.CeilSeconds(SyncCooldownMs - (now - lastSyncTime))), lastSyncTime, None)
    else if !Truthy(env.calendarId) || !Truthy(env.apiKey) then
      SyncOutcome(MissingConfig, lastSyncTime, None)
    else if fetch.FetchFailed? then
      SyncOutcome(SyncFailed, lastSyncTime, None)
    else
      var merged := Reconcile(StoredEvents(file), fetch.events, ts);
      if !writeOk then SyncOutcome(SyncFailed, lastSyncTime, None)
      else SyncOutcome(Synced(merged.stats, cron), now, Some(merged.events))
  }

  /** Without a calendar id or API key the outcome is the same whatever the fetch or the file would give. */
  lemma ConfigCheckedBeforeFetch(
    lastSyncTime: int, now: int, authHeader: Option<string>, env: Env,
    fetch1: FetchOutcome, file1: StoredFile, fetch2: FetchOutcome, file2: StoredFile, writeOk: bool, ts: string -> int)
    requires !Truthy(env.calendarId) || !Truthy(env.apiKey)
    ensures HandleSync(lastSyncTime, now, authHeader, env, fetch1, file1, writeOk, ts)
         == HandleSync(lastSyncTime, now, authHeader, env, fetch2, file2, writeOk, ts)
    ensures !HandleSync(lastSyncTime, now, authHeader, env, fetch1, file1, writeOk, ts).response.Synced?
  {
  }

  /** After a successful sync, any request without the cron header within the next minute is refused and changes nothing. */
  lemma CooldownAfterSync(
    lastSyncTime: int, now: int, authHeader: Option<string>, env: Env,
    fetch: FetchOutcome, file: StoredFile, writeOk: bool, ts: string -> int,
    later: int, authHeader2: Option<string>, fetch2: FetchOutcome, file2: StoredFile, writeOk2: bool)
    requires HandleSync(lastSyncTime, now, authHeader, env, fetch, file, writeOk, ts).response.Synced?
    requires now <= later < now + SyncCooldownMs && !IsCron(authHeader2, env.cronSecret)
    ensures var first := HandleSync(lastSyncTime, now, authHeader, env, fetch, file, writeOk, ts);
      var second := HandleSync(first.lastSyncTime, later, authHeader2, env, fetch2, file2, writeOk2, ts);
      second.response.RateLimited? && second.lastSyncTime == now && second.written.None?
  {
  }

  /** The cron header passes the cooldown whatever the clock says. */
  lemma CronBypassesCooldown(
    lastSyncTime: int, now: int, env: Env, fetch: FetchOutcome, file: StoredFile, writeOk: bool, ts: string -> int)
    ensures !HandleSync(lastSyncTime, now, Some(ExpectedAuth(env.cronSecret)), env, fetch, file, writeOk, ts).response.RateLimited?
  {
  }
}
