/**
 * The app-store handlers of the agent: registering, launching, stopping and
 * removing apps, creating and removing policies, assigning a policy to an
 * app, and reading the audit log newest first.
 *
 * Each handler is a method over the `FileStore`; the checks it makes before
 * writing are a function of the files (`...Check`), and the methods state
 * the new files and the reply in terms of those checks. Identifiers and
 * clock readings are inputs (`id`, `entryId`, `now`), and so is whether
 * each write reaches the disk.
 */
module AppStore {
  import opened Common
  import opened Collections
  import opened Store
  import Numerals

  /** The errors the handlers report. */
  datatype Problem =
    | InvalidBody | MissingFields | AppNotFound | PolicyNotFound
    | AlreadyRunning | AlreadyStopped
    | GetAppFailed | RegisterFailed | DeleteAppFailed | UpdateFailed
    | CreatePolicyFailed | DeletePolicyFailed | AuditLogFailed

  datatype Reply =
    | AppReply(status: int, app: AppRecord)
    | Lifecycle(state: string, app: AppRecord)
    | PolicyReply(status: int, policy: PolicyRecord)
    | AuditReply(entries: seq<AuditLogEntry>, count: nat)
    | NoContent
    | Failure(status: int, problem: Problem)

  // ----- records the handlers build -----

  datatype RegisterRequest = RegisterRequest(
    name: string, description: string, language: string, entryPoint: string, metadata: map<string, string>)

  /** A newly registered app: stopped, no policy, never launched, language "unknown" when not given. */
  function NewApp(req: RegisterRequest, id: string, now: string): AppRecord
  {
    AppRecord(id, req.name, req.description, if req.language == "" then "unknown" else req.language,
      req.entryPoint, "stopped", "", now, "", req.metadata)
  }

  function Launched(app: AppRecord, now: string): AppRecord
  {
    app.(status := "running", lastLaunchedAt := now)
  }

  function Stopped(app: AppRecord): AppRecord
  {
    app.(status := "stopped")
  }

  function Assigned(app: AppRecord, policyId: string): AppRecord
  {
    app.(policyId := policyId)
  }

  /** The body of a create-policy request; a domain list that is absent or null is `None`. */
  datatype PolicyRequest = PolicyRequest(
    name: string, description: string,
    allowedDomains: Option<seq<string>>, blockedDomains: Option<seq<string>>,
    maxSpend: real, allowFileWrite: bool, allowNetAccess: bool)

  /** A new policy: absent domain lists become empty, and `updatedAt` is left empty. */
  function NewPolicy(req: PolicyRequest, id: string, now: string): PolicyRecord
  {
    PolicyRecord(id, req.name, req.description, GetOr(req.allowedDomains, []), GetOr(req.blockedDomains, []),
      req.maxSpend, req.allowFileWrite, req.allowNetAccess, now, "")
  }

  /** An audit entry the app store writes about itself. */
  function SystemEntry(entryId: string, app: AppRecord, details: string, now: string): AuditLogEntry
  {
    AuditLogEntry(entryId, app.id, app.name, "system", "internal", "app-store", details, "allowed", now)
  }

  /** An audit entry for a command sent towards the execution engine. */
  function LifecycleEntry(entryId: string, app: AppRecord, details: string, now: string): AuditLogEntry
  {
    AuditLogEntry(entryId, app.id, app.name, "lifecycle", "outbound", "vps-execution-engine", details, "allowed", now)
  }

  function RegisteredDetails(app: AppRecord): string
  {
    "App '" + app.name + "' registered (language: " + app.language + ")"
  }

  function RemovedDetails(app: AppRecord): string
  {
    "App '" + app.name + "' removed"
  }

  function LaunchDetails(app: AppRecord): string
  {
    "Launch command issued for '" + app.name + "' (stubbed — no VPS connected yet)"
  }

  function StopDetails(app: AppRecord): string
  {
    "Stop command issued for '" + app.name + "'"
  }

  // ----- the checks made before writing -----

  /** `GetApp` as the lifecycle handlers use it: a read error is a 500, no app a 404. */
  function LookupApp(apps: Doc<seq<AppRecord>>, id: string): (r: Result<AppRecord, Reply>)
    ensures r == Err(Failure(500, GetAppFailed)) <==> apps.Corrupt?
    ensures r.Ok? ==> r.value.id == id && r.value in LoadOrEmpty(apps)
  {
    if apps.Corrupt? then Err(Failure(500, GetAppFailed))
    else if Find(LoadOrEmpty(apps), AppId, id).None? then Err(Failure(404, AppNotFound))
    else Ok(Find(LoadOrEmpty(apps), AppId, id).value)
  }

  function RegisterCheck(body: Option<RegisterRequest>, id: string, now: string): (r: Result<AppRecord, Reply>)
    ensures r.Ok? <==> body.Some? && body.value.name != ""
    ensures r.Ok? ==> r.value.id == id && r.value.status == "stopped" && r.value.registeredAt == now
  {
    if body.None? then Err(Failure(400, InvalidBody))
    else if body.value.name == "" then Err(Failure(400, MissingFields))
    else Ok(NewApp(body.value, id, now))
  }

  function LaunchCheck(apps: Doc<seq<AppRecord>>, id: string, now: string): (r: Result<AppRecord, Reply>)
    ensures r.Ok? ==> r.value.id == id && r.value.status == "running" && r.value.lastLaunchedAt == now
    ensures r == Err(Failure(409, AlreadyRunning)) <==> LookupApp(apps, id).Ok? && LookupApp(apps, id).value.status == "running"
  {
    var found := LookupApp(apps, id);
    if found.Err? then found
    else if found.value.status == "running" then Err(Failure(409, AlreadyRunning))
    else Ok(Launched(found.value, now))
  }

  function StopCheck(apps: Doc<seq<AppRecord>>, id: string): (r: Result<AppRecord, Reply>)
    ensures r.Ok? ==> r.value.id == id && r.value.status == "stopped"
    ensures r == Err(Failure(409, AlreadyStopped)) <==> LookupApp(apps, id).Ok? && LookupApp(apps, id).value.status == "stopped"
  {
    var found := LookupApp(apps, id);
    if found.Err? then found
    else if found.value.status == "stopped" then Err(Failure(409, AlreadyStopped))
    else Ok(Stopped(found.value))
  }

  /**
   * Assigning a policy: the body first, then the app (a read error counts as
   * no app), then, for a non-empty id, the policy (likewise).
   */
  function AssignCheck(apps: Doc<seq<AppRecord>>, policies: Doc<seq<PolicyRecord>>, id: string, body: Option<string>)
    : (r: Result<AppRecord, Reply>)
    ensures r.Ok? ==> body.Some? && r.value.id == id && r.value.policyId == body.value
    ensures r.Ok? && body.value != "" ==> policies.Stored? && Find(policies.value, PolicyId, body.value).Some?
  {
    if body.None? then Err(Failure(400, InvalidBody))
    else if apps.Corrupt? || Find(LoadOrEmpty(apps), AppId, id).None? then Err(Failure(404, AppNotFound))
    else if body.value != "" && (policies.Corrupt? || Find(LoadOrEmpty(policies), PolicyId, body.value).None?) then
      Err(Failure(404, PolicyNotFound))
    else Ok(Assigned(Find(LoadOrEmpty(apps), AppId, id).value, body.value))
  }

  function CreatePolicyCheck(body: Option<PolicyRequest>, id: string, now: string): (r: Result<PolicyRecord, Reply>)
    ensures r.Ok? <==> body.Some? && body.value.name != ""
    ensures r.Ok? ==> r.value.id == id && r.value.name == body.value.name && r.value.createdAt == now
  {
    if body.None? then Err(Failure(400, InvalidBody))
    else if body.value.name == "" then Err(Failure(400, MissingFields))
    else Ok(NewPolicy(body.value, id, now))
  }

  /** Deleting a policy: a read error or no policy is a 404. */
  function DeletePolicyCheck(policies: Doc<seq<PolicyRecord>>, id: string): (r: Result<PolicyRecord, Reply>)
    ensures r.Ok? <==> policies.Stored? && Find(policies.value, PolicyId, id).Some?
    ensures r.Err? ==> r.error == Failure(404, PolicyNotFound)
    ensures r.Ok? ==> policies.Stored? && r.value.id == id && r.value in policies.value
  {
    if policies.Corrupt? || Find(LoadOrEmpty(policies), PolicyId, id).None? then Err(Failure(404, PolicyNotFound))
    else Ok(Find(LoadOrEmpty(policies), PolicyId, id).value)
  }

  /** The `limit` query parameter: 100 unless it parses as a positive integer. */
  function ParseLimit(s: string): (r: nat)
    ensures r > 0
  {
    if s == "" then 100
    else
      var l := Numerals.Atoi(s);
      if l.Some? && l.value > 0 then l.value else 100
  }

  // ----- the handlers -----

  /**
   * Saves the app and, only when that succeeded, appends the audit entry,
   * whose own failure is ignored.
   */
  method SaveAppAudited(
    s: FileStore, app: AppRecord, entry: AuditLogEntry, appWrite: WriteOutcome, auditWrite: WriteOutcome,
    success: Reply, failure: Problem)
    returns (reply: Reply)
    modifies s`apps, s`auditLog
    ensures s.apps == Written(old(s.apps), Upsert(LoadOrEmpty(old(s.apps)), AppId, app), appWrite)
    ensures s.auditLog == if appWrite.Done? then Written(old(s.auditLog), AppendBounded(LoadOrEmpty(old(s.auditLog)), entry), auditWrite)
      else old(s.auditLog)
    ensures reply == if appWrite.Done? then success else Failure(500, failure)
  {
    var err := s.SaveApp(app, appWrite);
    if err.Some? {
      return Failure(500, failure);
    }
    err := s.AppendAuditLog(entry, auditWrite);
    reply := success;
  }

  /** `handleRegisterApp`. */
  method HandleRegisterApp(
    s: FileStore, body: Option<RegisterRequest>, id: string, entryId: string, now: string,
    appWrite: WriteOutcome, auditWrite: WriteOutcome)
    returns (reply: Reply)
    modifies s`apps, s`auditLog
    ensures RegisterCheck(body, id, now).Err? ==>
      reply == RegisterCheck(body, id, now).error && s.apps == old(s.apps) && s.auditLog == old(s.auditLog)
    ensures RegisterCheck(body, id, now).Ok? ==>
      var app := RegisterCheck(body, id, now).value;
      s.apps == Written(old(s.apps), Upsert(LoadOrEmpty(old(s.apps)), AppId, app), appWrite)
      && s.auditLog == (if appWrite.Done? then Written(old(s.auditLog),
           AppendBounded(LoadOrEmpty(old(s.auditLog)), SystemEntry(entryId, app, RegisteredDetails(app), now)), auditWrite)
         else old(s.auditLog))
      && reply == (if appWrite.Done? then AppReply(201, app) else Failure(500, RegisterFailed))
  {
    if body.None? {
      return Failure(400, InvalidBody);
    }
    var req := body.value;
    if req.name == "" {
      return Failure(400, MissingFields);
    }
    if req.language == "" {
      req := req.(language := "unknown");
    }
    var app := AppRecord(id, req.name, req.description, req.language, req.entryPoint, "stopped", "", now, "", req.metadata);
    reply := SaveAppAudited(s, app, SystemEntry(entryId, app, RegisteredDetails(app), now), appWrite, auditWrite,
      AppReply(201, app), RegisterFailed);
  }

  /** `handleDeleteApp`. */
  method HandleDeleteApp(s: FileStore, id: string, entryId: string, now: string, appWrite: WriteOutcome, auditWrite: WriteOutcome)
    returns (reply: Reply)
    modifies s`apps, s`auditLog
    ensures LookupApp(old(s.apps), id).Err? ==>
      reply == LookupApp(old(s.apps), id).error && s.apps == old(s.apps) && s.auditLog == old(s.auditLog)
    ensures LookupApp(old(s.apps), id).Ok? ==>
      var app := LookupApp(old(s.apps), id).value;
      s.apps == Written(old(s.apps), Remove(LoadOrEmpty(old(s.apps)), AppId, id), appWrite)
      && s.auditLog == (if appWrite.Done? then Written(old(s.auditLog),
           AppendBounded(LoadOrEmpty(old(s.auditLog)), SystemEntry(entryId, app, RemovedDetails(app), now)), auditWrite)
         else old(s.auditLog))
      && reply == (if appWrite.Done? then NoContent else Failure(500, DeleteAppFailed))
  {
    var found := s.GetApp(id);
    if found.Err? {
      return Failure(500, GetAppFailed);
    }
    if found.value.None? {
      return Failure(404, AppNotFound);
    }
    var app := found.value.value;
    var err := s.DeleteApp(id, appWrite);
    if err.Some? {
      return Failure(500, DeleteAppFailed);
    }
    err := s.AppendAuditLog(SystemEntry(entryId, app, RemovedDetails(app), now), auditWrite);
    reply := NoContent;
  }

  /** `handleLaunchApp`: the launch itself is only recorded, nothing is started. */
  method HandleLaunchApp(s: FileStore, id: string, entryId: string, now: string, appWrite: WriteOutcome, auditWrite: WriteOutcome)
    returns (reply: Reply)
    modifies s`apps, s`auditLog
    ensures LaunchCheck(old(s.apps), id, now).Err? ==>
      reply == LaunchCheck(old(s.apps), id, now).error && s.apps == old(s.apps) && s.auditLog == old(s.auditLog)
    ensures LaunchCheck(old(s.apps), id, now).Ok? ==>
      var app := LaunchCheck(old(s.apps), id, now).value;
      s.apps == Written(old(s.apps), Upsert(LoadOrEmpty(old(s.apps)), AppId, app), appWrite)
      && s.auditLog == (if appWrite.Done? then Written(old(s.auditLog),
           AppendBounded(LoadOrEmpty(old(s.auditLog)), LifecycleEntry(entryId, app, LaunchDetails(app), now)), auditWrite)
         else old(s.auditLog))
      && reply == (if appWrite.Done? then Lifecycle("launched", app) else Failure(500, UpdateFailed))
  {
    var found := s.GetApp(id);
    if found.Err? {
      return Failure(500, GetAppFailed);
    }
    if found.value.None? {
      return Failure(404, AppNotFound);
    }
    var app := found.value.value;
    if app.status == "running" {
      return Failure(409, AlreadyRunning);
    }
    app := app.(status := "running", lastLaunchedAt := now);
    reply := SaveAppAudited(s, app, LifecycleEntry(entryId, app, LaunchDetails(app), now), appWrite, auditWrite,
      Lifecycle("launched", app), UpdateFailed);
  }

  /** `handleStopApp`. */
  method HandleStopApp(s: FileStore, id: string, entryId: string, now: string, appWrite: WriteOutcome, auditWrite: WriteOutcome)
    returns (reply: Reply)
    modifies s`apps, s`auditLog
    ensures StopCheck(old(s.apps), id).Err? ==>
      reply == StopCheck(old(s.apps), id).error && s.apps == old(s.apps) && s.auditLog == old(s.auditLog)
    ensures StopCheck(old(s.apps), id).Ok? ==>
      var app := StopCheck(old(s.apps), id).value;
      s.apps == Written(old(s.apps), Upsert(LoadOrEmpty(old(s.apps)), AppId, app), appWrite)
      && s.auditLog == (if appWrite.Done? then Written(old(s.auditLog),
           AppendBounded(LoadOrEmpty(old(s.auditLog)), LifecycleEntry(entryId, app, StopDetails(app), now)), auditWrite)
         else old(s.auditLog))
      && reply == (if appWrite.Done? then Lifecycle("stopped", app) else Failure(500, UpdateFailed))
  {
    var found := s.GetApp(id);
    if found.Err? {
      return Failure(500, GetAppFailed);
    }
    if found.value.None? {
      return Failure(404, AppNotFound);
    }
    var app := found.value.value;
    if app.status == "stopped" {
      return Failure(409, AlreadyStopped);
    }
    app := app.(status := "stopped");
    reply := SaveAppAudited(s, app, LifecycleEntry(entryId, app, StopDetails(app), now), appWrite, auditWrite,
      Lifecycle("stopped", app), UpdateFailed);
  }

  /** `handleAssignPolicy`; an empty policy id clears the assignment. No audit entry is written. */
  method HandleAssignPolicy(s: FileStore, id: string, body: Option<string>, appWrite: WriteOutcome)
    returns (reply: Reply)
    modifies s`apps
    ensures AssignCheck(old(s.apps), s.policies, id, body).Err? ==>
      reply == AssignCheck(old(s.apps), s.policies, id, body).error && s.apps == old(s.apps)
    ensures AssignCheck(old(s.apps), s.policies, id, body).Ok? ==>
      var app := AssignCheck(old(s.apps), s.policies, id, body).value;
      s.apps == Written(old(s.apps), Upsert(LoadOrEmpty(old(s.apps)), AppId, app), appWrite)
      && reply == (if appWrite.Done? then AppReply(200, app) else Failure(500, UpdateFailed))
  {
    if body.None? {
      return Failure(400, InvalidBody);
    }
    var policyId := body.value;
    var found := s.GetApp(id);
    if found.Err? || found.value.None? {
      return Failure(404, AppNotFound);
    }
    if policyId != "" {
      var policy := s.GetPolicy(policyId);
      if policy.Err? || policy.value.None? {
        return Failure(404, PolicyNotFound);
      }
    }
    var app := found.value.value.(policyId := policyId);
    var err := s.SaveApp(app, appWrite);
    if err.Some? {
      return Failure(500, UpdateFailed);
    }
    reply := AppReply(200, app);
  }

  /** `handleCreatePolicy`. */
  method HandleCreatePolicy(s: FileStore, body: Option<PolicyRequest>, id: string, now: string, write: WriteOutcome)
    returns (reply: Reply)
    modifies s`policies
    ensures CreatePolicyCheck(body, id, now).Err? ==>
      reply == CreatePolicyCheck(body, id, now).error && s.policies == old(s.policies)
    ensures CreatePolicyCheck(body, id, now).Ok? ==>
      var policy := CreatePolicyCheck(body, id, now).value;
      s.policies == Written(old(s.policies), Upsert(LoadOrEmpty(old(s.policies)), PolicyId, policy), write)
      && reply == (if write.Done? then PolicyReply(201, policy) else Failure(500, CreatePolicyFailed))
  {
    if body.None? {
      return Failure(400, InvalidBody);
    }
    var req := body.value;
    if req.name == "" {
      return Failure(400, MissingFields);
    }
    if req.allowedDomains.None? {
      req := req.(allowedDomains := Some([]));
    }
    if req.blockedDomains.None? {
      req := req.(blockedDomains := Some([]));
    }
    var policy := PolicyRecord(id, req.name, req.description, req.allowedDomains.value, req.blockedDomains.value,
      req.maxSpend, req.allowFileWrite, req.allowNetAccess, now, "");
    var err := s.SavePolicy(policy, write);
    if err.Some? {
      return Failure(500, CreatePolicyFailed);
    }
    reply := PolicyReply(201, policy);
  }

  /** `handleDeletePolicy`. Apps that name the policy keep naming it. */
  method HandleDeletePolicy(s: FileStore, id: string, write: WriteOutcome) returns (reply: Reply)
    modifies s`policies
    ensures DeletePolicyCheck(old(s.policies), id).Err? ==>
      reply == DeletePolicyCheck(old(s.policies), id).error && s.policies == old(s.policies)
    ensures DeletePolicyCheck(old(s.policies), id).Ok? ==>
      s.policies == Written(old(s.policies), Remove(LoadOrEmpty(old(s.policies)), PolicyId, id), write)
      && reply == (if write.Done? then NoContent else Failure(500, DeletePolicyFailed))
  {
    var found := s.GetPolicy(id);
    if found.Err? || found.value.None? {
      return Failure(404, PolicyNotFound);
    }
    var err := s.DeletePolicy(id, write);
    if err.Some? {
      return Failure(500, DeletePolicyFailed);
    }
    reply := NoContent;
  }

  /** `s` back to front: the reference the in-place loop is proved against. */
  function Reversed<T>(s: seq<T>): (r: seq<T>)
    ensures |r| == |s|
    ensures forall i :: 0 <= i < |s| ==> r[i] == s[|s| - 1 - i]
    decreases |s|
  {
    if s == [] then [] else [s[|s| - 1]] + Reversed(s[..|s| - 1])
  }

  /** The two-index swapping loop of `handleGetAuditLog`. */
  method ReverseInPlace<T>(a: array<T>)
    modifies a
    ensures a[..] == Reversed(old(a[..]))
  {
    var i, j := 0, a.Length - 1;
    while i < j
      invariant 0 <= i <= a.Length && j == a.Length - 1 - i && i <= j + 1
      invariant forall k :: 0 <= k < i ==> a[k] == old(a[a.Length - 1 - k]) && a[a.Length - 1 - k] == old(a[k])
      invariant forall k :: i <= k <= j ==> a[k] == old(a[k])
    {
      a[i], a[j] := a[j], a[i];
      i, j := i + 1, j - 1;
    }
  }

  /** `handleGetAuditLog`: the query's entries, newest first. Nothing is written. */
  method HandleGetAuditLog(s: FileStore, appId: string, limitParam: string) returns (reply: Reply)
    ensures s.auditLog.Corrupt? ==> reply == Failure(500, AuditLogFailed)
    ensures !s.auditLog.Corrupt? ==>
      var entries := Reversed(AuditQuery(LoadOrEmpty(s.auditLog), appId, ParseLimit(limitParam)));
      reply == AuditReply(entries, |entries|)
  {
    var limit := 100;
    if limitParam != "" {
      var l := Numerals.Atoi(limitParam);
      if l.Some? && l.value > 0 {
        limit := l.value;
      }
    }
    var found := s.GetAuditLog(appId, limit);
    if found.Err? {
      return Failure(500, AuditLogFailed);
    }
    var entries := found.value;
    var a := new AuditLogEntry[|entries|](i requires 0 <= i < |entries| => entries[i]);
    assert a[..] == entries;
    ReverseInPlace(a);
    reply := AuditReply(a[..], a.Length);
  }

  // ----- what the handlers guarantee -----

  /**
   * A registration with a name saves a stopped app with no policy, never
   * launched, whose language is the requested one or "unknown" when none is
   * given, and a lookup of its id finds it.
   */
  lemma RegisteredApp(apps: seq<AppRecord>, body: Option<RegisterRequest>, id: string, now: string)
    ensures RegisterCheck(body, id, now).Ok? <==> body.Some? && body.value.name != ""
    ensures RegisterCheck(body, id, now).Ok? ==>
      var app := RegisterCheck(body, id, now).value;
      app.id == id && app.name == body.value.name && app.status == "stopped" && app.policyId == ""
      && app.lastLaunchedAt == "" && app.language != ""
      && (body.value.language != "" ==> app.language == body.value.language)
      && (body.value.language == "" ==> app.language == "unknown")
      && Find(Upsert(apps, AppId, app), AppId, id) == Some(app)
  {
    if RegisterCheck(body, id, now).Ok? {
      UpsertShape(apps, AppId, RegisterCheck(body, id, now).value);
    }
  }

  /**
   * Launch: an unknown id is a 404, a running app a 409, and otherwise the
   * app found is saved running with the launch time, every other field kept.
   */
  lemma LaunchOutcome(apps: Doc<seq<AppRecord>>, id: string, now: string)
    requires !apps.Corrupt?
    ensures Find(LoadOrEmpty(apps), AppId, id).None? ==> LaunchCheck(apps, id, now) == Err(Failure(404, AppNotFound))
    ensures Find(LoadOrEmpty(apps), AppId, id).Some? ==>
      var app := Find(LoadOrEmpty(apps), AppId, id).value;
      (app.status == "running" <==> LaunchCheck(apps, id, now) == Err(Failure(409, AlreadyRunning)))
    ensures Find(LoadOrEmpty(apps), AppId, id).Some? && Find(LoadOrEmpty(apps), AppId, id).value.status != "running" ==>
      var app := Find(LoadOrEmpty(apps), AppId, id).value;
      LaunchCheck(apps, id, now) == Ok(Launched(app, now))
      && Launched(app, now).status == "running" && Launched(app, now).lastLaunchedAt == now
      && Launched(app, now).(status := app.status, lastLaunchedAt := app.lastLaunchedAt) == app
  {
  }

  /** Stop: a stopped app is a 409; otherwise only the status changes, to "stopped". */
  lemma StopOutcome(apps: Doc<seq<AppRecord>>, id: string)
    requires !apps.Corrupt?
    ensures Find(LoadOrEmpty(apps), AppId, id).None? ==> StopCheck(apps, id) == Err(Failure(404, AppNotFound))
    ensures Find(LoadOrEmpty(apps), AppId, id).Some? ==>
      var app := Find(LoadOrEmpty(apps), AppId, id).value;
      (app.status == "stopped" <==> StopCheck(apps, id) == Err(Failure(409, AlreadyStopped)))
    ensures Find(LoadOrEmpty(apps), AppId, id).Some? && Find(LoadOrEmpty(apps), AppId, id).value.status != "stopped" ==>
      var app := Find(LoadOrEmpty(apps), AppId, id).value;
      StopCheck(apps, id) == Ok(Stopped(app)) && Stopped(app).status == "stopped" && Stopped(app).(status := app.status) == app
  {
  }

  /** The app a lifecycle handler saves is the one found, so its id's lookup now finds the new record and other ids are unaffected. */
  lemma SavedAppLookups(apps: Doc<seq<AppRecord>>, id: string, app: AppRecord, other: string)
    requires app.id == id && other != id
    ensures Find(Upsert(LoadOrEmpty(apps), AppId, app), AppId, id) == Some(app)
    ensures Find(Upsert(LoadOrEmpty(apps), AppId, app), AppId, other) == Find(LoadOrEmpty(apps), AppId, other)
  {
    UpsertShape(LoadOrEmpty(apps), AppId, app);
    UpsertOtherKeys(LoadOrEmpty(apps), AppId, app, other);
  }

  /**
   * Assigning: a non-empty policy id that names no readable policy is a 404;
   * otherwise the app gets exactly that policy id, and the empty id clears it.
   */
  lemma AssignOutcome(apps: Doc<seq<AppRecord>>, policies: Doc<seq<PolicyRecord>>, id: string, policyId: string)
    requires !apps.Corrupt? && Find(LoadOrEmpty(apps), AppId, id).Some?
    ensures policyId != "" && (policies.Corrupt? || Find(LoadOrEmpty(policies), PolicyId, policyId).None?) <==>
      AssignCheck(apps, policies, id, Some(policyId)) == Err(Failure(404, PolicyNotFound))
    ensures AssignCheck(apps, policies, id, Some(policyId)).Ok? ==>
      var app := Find(LoadOrEmpty(apps), AppId, id).value;
      AssignCheck(apps, policies, id, Some(policyId)).value == Assigned(app, policyId)
      && Assigned(app, policyId).policyId == policyId && Assigned(app, policyId).(policyId := app.policyId) == app
    ensures !(policyId != "" && (policies.Corrupt? || Find(LoadOrEmpty(policies), PolicyId, policyId).None?)) ==>
      AssignCheck(apps, policies, id, Some(policyId)) == Ok(Assigned(Find(LoadOrEmpty(apps), AppId, id).value, policyId))
    ensures AssignCheck(apps, policies, id, Some("")).Ok?
  {
  }

  /**
   * Deleting a policy: a readable stored policy with the id passes the check,
   * and once removed its id finds nothing while every other id still finds
   * what it found before.
   */
  lemma DeletePolicyOutcome(policies: Doc<seq<PolicyRecord>>, id: string, other: string)
    requires policies.Stored? && Find(policies.value, PolicyId, id).Some? && other != id
    ensures DeletePolicyCheck(policies, id) == Ok(Find(policies.value, PolicyId, id).value)
    ensures Find(Remove(LoadOrEmpty(policies), PolicyId, id), PolicyId, id) == None
    ensures Find(Remove(LoadOrEmpty(policies), PolicyId, id), PolicyId, other) == Find(policies.value, PolicyId, other)
  {
    RemoveLookups(LoadOrEmpty(policies), PolicyId, id, other);
  }

  /** A policy is created exactly when the body has a name; its domain lists are never absent. */
  lemma CreatedPolicy(body: Option<PolicyRequest>, id: string, now: string)
    ensures CreatePolicyCheck(body, id, now).Ok? <==> body.Some? && body.value.name != ""
    ensures CreatePolicyCheck(body, id, now).Ok? ==>
      var p := CreatePolicyCheck(body, id, now).value;
      p.id == id && p.name == body.value.name
      && (body.value.allowedDomains.None? ==> p.allowedDomains == [])
      && (body.value.allowedDomains.Some? ==> p.allowedDomains == body.value.allowedDomains.value)
      && (body.value.blockedDomains.None? ==> p.blockedDomains == [])
      && (body.value.blockedDomains.Some? ==> p.blockedDomains == body.value.blockedDomains.value)
  {
  }

  /** The limit is always positive: the parsed value when that is positive, 100 otherwise. */
  lemma LimitValue(s: string)
    ensures ParseLimit(s) > 0
    ensures Numerals.Atoi(s).Some? && Numerals.Atoi(s).value > 0 ==> ParseLimit(s) == Numerals.Atoi(s).value
    ensures !(Numerals.Atoi(s).Some? && Numerals.Atoi(s).value > 0) ==> ParseLimit(s) == 100
  {
    if s == "" {
      assert Numerals.DigitsValue(Numerals.Unsigned(s)).None?;
    }
  }

  /** Every positive int64 written in decimal is taken as the limit. */
  lemma LimitOfDecimal(n: int)
    requires 0 < n <= Numerals.MaxInt64
    ensures ParseLimit(Numerals.Decimal(n)) == n
  {
    Numerals.AtoiDecimal(n);
  }

  /** Reversing twice gives the entries back. */
  lemma ReversedTwice<T>(s: seq<T>)
    ensures Reversed(Reversed(s)) == s
  {
  }

  /**
   * Right after an entry is appended, the audit log read for all apps, or
   * for the entry's app, starts with that entry.
   */
  lemma NewestFirst(entries: seq<AuditLogEntry>, entry: AuditLogEntry, appId: string, limitParam: string)
    requires appId == "" || appId == entry.appId
    ensures var r := Reversed(AuditQuery(AppendBounded(entries, entry), appId, ParseLimit(limitParam)));
      |r| >= 1 && r[0] == entry
  {
    var log := AppendBounded(entries, entry);
    var q := AuditQuery(log, appId, ParseLimit(limitParam));
    QueryKeepsNewest(log, entry, appId, ParseLimit(limitParam));
    assert Reversed(q)[0] == q[|q| - 1];
  }

  /** A query for the newest entry's app, or for all apps, still ends with that entry. */
  lemma QueryKeepsNewest(log: seq<AuditLogEntry>, entry: AuditLogEntry, appId: string, limit: int)
    requires limit > 0 && |log| >= 1 && log[|log| - 1] == entry
    requires appId == "" || appId == entry.appId
    ensures var q := AuditQuery(log, appId, limit); |q| >= 1 && q[|q| - 1] == entry
  {
    var selected := if appId != "" then Select(log, EntryAppId, appId, true) else log;
    if appId != "" {
      var init := log[..|log| - 1];
      assert log == init + [entry];
      SelectAppend(init, [entry], EntryAppId, appId, true);
      assert Select([entry], EntryAppId, appId, true) == [entry] by {
        assert [entry][..0] == [];
      }
    }
    assert |selected| >= 1 && selected[|selected| - 1] == entry;
    AuditQueryProperties(log, appId, limit);
  }

}
