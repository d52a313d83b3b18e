/**
 * The file-backed store of the agent (`FileStore`). Every collection lives in
 * its own JSON file, and every operation loads the whole file, works on the
 * list, and writes the whole list back.
 *
 * A file is modelled by what a load finds in it: nothing (`Missing`, which
 * loads as the empty list), something unreadable or unparsable (`Corrupt`,
 * which is a load error), or a stored value. What a write does to its file is
 * an input (`WriteOutcome`): a write refused before the file is opened leaves
 * it as it was, but one that breaks off after the file was truncated leaves it
 * unparsable.
 */
module Store {
  import opened Common
  import opened Collections

  datatype EventRecord = EventRecord(
    aid: string,
    sequenceNumber: int,
    eventType: string,
    eventJson: string,
    publicKey: string,
    nextKeyDigest: string,
    timestamp: string)

  datatype IdentityState = IdentityState(
    aid: string,
    publicKey: string,
    nextKeyDigest: string,
    created: string,
    eventCount: int)

  datatype ContactRecord = ContactRecord(
    aid: string,
    alias: string,
    publicKey: string,
    oobiUrl: string,
    verified: bool,
    discoveredAt: string)

  datatype AppRecord = AppRecord(
    id: string,
    name: string,
    description: string,
    language: string,
    entryPoint: string,
    status: string,
    policyId: string,
    registeredAt: string,
    lastLaunchedAt: string,
    metadata: map<string, string>)

  datatype PolicyRecord = PolicyRecord(
    id: string,
    name: string,
    description: string,
    allowedDomains: seq<string>,
    blockedDomains: seq<string>,
    maxSpend: real,
    allowFileWrite: bool,
    allowNetAccess: bool,
    createdAt: string,
    updatedAt: string)

  datatype AuditLogEntry = AuditLogEntry(
    id: string,
    appId: string,
    appName: string,
    eventType: string,
    direction: string,
    target: string,
    details: string,
    action: string,
    timestamp: string)

  // The keys the collections are searched by.
  function EventAid(e: EventRecord): string { e.aid }
  function ContactAid(c: ContactRecord): string { c.aid }
  function AppId(a: AppRecord): string { a.id }
  function PolicyId(p: PolicyRecord): string { p.id }
  function EntryAppId(e: AuditLogEntry): string { e.appId }

  /** What loading a file finds. */
  datatype Doc<T> = Missing | Corrupt | Stored(value: T)

  datatype StoreError = ReadFailed | WriteFailed

  /** Loading a list file: a missing file is the empty list, a corrupt one an error. */
  function Load<T>(d: Doc<seq<T>>): Result<seq<T>, StoreError>
  {
    match d
    case Missing => Ok([])
    case Corrupt => Err(ReadFailed)
    case Stored(xs) => Ok(xs)
  }

  /** What the save operations start from: the loaded list, or the empty list when the load fails. */
  function LoadOrEmpty<T>(d: Doc<seq<T>>): seq<T>
  {
    match Load(d)
    case Ok(xs) => xs
    case Err(_) => []
  }

  /**
   * What happens to a file when `writeJSON` rewrites it: the write completes,
   * is refused before the file is opened (truncated), or breaks off after the
   * truncation, leaving a file that no longer parses.
   */
  datatype WriteOutcome = Done | Refused | Torn

  /** The error a write reports. */
  function WriteResult(outcome: WriteOutcome): Option<StoreError>
  {
    if outcome.Done? then None else Some(WriteFailed)
  }

  /** The file after writing `v` to it. */
  function Written<T>(d: Doc<T>, v: T, outcome: WriteOutcome): Doc<T>
  {
    match outcome
    case Done => Stored(v)
    case Refused => d
    case Torn => Corrupt
  }

  /** The audit log keeps its last 1000 entries. */
  const MaxAuditEntries: nat := 1000

  /** The log after `AppendAuditLog`: the entry appended, then only the newest 1000 kept. */
  function AppendBounded(entries: seq<AuditLogEntry>, entry: AuditLogEntry): (r: seq<AuditLogEntry>)
    ensures 1 <= |r| <= MaxAuditEntries && r[|r| - 1] == entry
  {
    LastN(entries + [entry], MaxAuditEntries)
  }

  /**
   * The new entry is always the newest, the log never holds more than 1000,
   * it is a suffix of the old log plus the entry, and below the bound nothing
   * is dropped.
   */
  lemma AppendBoundedProperties(entries: seq<AuditLogEntry>, entry: AuditLogEntry)
    ensures var r := AppendBounded(entries, entry);
      |r| <= MaxAuditEntries && |r| >= 1 && r[|r| - 1] == entry
      && IsSuffix(r, entries + [entry])
      && (|entries| < MaxAuditEntries ==> r == entries + [entry])
  {
    LastNSuffix(entries + [entry], MaxAuditEntries);
  }

  /** `GetAuditLog` on a loaded log: filter by app when one is given, then keep the last `limit` when positive. */
  function AuditQuery(entries: seq<AuditLogEntry>, appId: string, limit: int): (r: seq<AuditLogEntry>)
    ensures |r| <= |entries| && (limit > 0 ==> |r| <= limit)
    ensures appId != "" ==> forall i :: 0 <= i < |r| ==> r[i].appId == appId
  {
    var selected := if appId != "" then Select(entries, EntryAppId, appId, true) else entries;
    if limit > 0 then LastN(selected, limit) else selected
  }

  /**
   * The answer is a suffix of the app's entries (all entries when no app is
   * given), at most `limit` long when the limit is positive, and the whole
   * selection otherwise.
   */
  lemma AuditQueryProperties(entries: seq<AuditLogEntry>, appId: string, limit: int)
    ensures var selected := if appId != "" then Select(entries, EntryAppId, appId, true) else entries;
      var r := AuditQuery(entries, appId, limit);
      IsSuffix(r, selected)
      && (limit > 0 ==> |r| == if |selected| > limit then limit else |selected|)
      && (limit <= 0 ==> r == selected)
      && (appId != "" ==> forall i :: 0 <= i < |r| ==> r[i].appId == appId)
  {
    var selected := if appId != "" then Select(entries, EntryAppId, appId, true) else entries;
    if limit > 0 {
      LastNSuffix(selected, limit);
      var r := LastN(selected, limit);
      assert forall i :: 0 <= i < |r| ==> r[i] == selected[|selected| - |r| + i];
    }
  }

  /** A store directory and the files in it. */
  class FileStore {
    var kel: Doc<seq<EventRecord>>
    var identity: Doc<IdentityState>
    var contacts: Doc<seq<ContactRecord>>
    var apps: Doc<seq<AppRecord>>
    var policies: Doc<seq<PolicyRecord>>
    var auditLog: Doc<seq<AuditLogEntry>>

    /** `NewFileStore` on an empty directory. */
    constructor ()
      ensures kel == Missing && identity == Missing && contacts == Missing
      ensures apps == Missing && policies == Missing && auditLog == Missing
    {
      kel := Missing;
      identity := Missing;
      contacts := Missing;
      apps := Missing;
      policies := Missing;
      auditLog := Missing;
    }

    /** Appends the record to the KEL file, with no sequence check; an unreadable KEL is started afresh. */
    method SaveEvent(record: EventRecord, outcome: WriteOutcome) returns (err: Option<StoreError>)
      modifies this`kel
      ensures err == WriteResult(outcome)
      ensures kel == Written(old(kel), LoadOrEmpty(old(kel)) + [record], outcome)
    {
      var events := LoadOrEmpty(kel);
      events := events + [record];
      err := WriteResult(outcome);
      kel := Written(kel, events, outcome);
    }

    /** The KEL records of one identifier, in stored order. */
    method GetEvents(aid: string) returns (r: Result<seq<EventRecord>, StoreError>)
      ensures r.Err? <==> kel.Corrupt?
      ensures r.Ok? ==> r.value == Select(LoadOrEmpty(kel), EventAid, aid, true)
    {
      var loaded := Load(kel);
      if loaded.Err? {
        return Err(loaded.error);
      }
      var filtered := SelectLoop(loaded.value, EventAid, aid, true);
      return Ok(filtered);
    }

    /** The identity, or None when its file does not exist. */
    method GetIdentity() returns (r: Result<Option<IdentityState>, StoreError>)
      ensures identity.Missing? ==> r == Ok(None)
      ensures identity.Corrupt? ==> r == Err(ReadFailed)
      ensures identity.Stored? ==> r == Ok(Some(identity.value))
    {
      match identity
      case Missing => r := Ok(None);
      case Corrupt => r := Err(ReadFailed);
      case Stored(state) => r := Ok(Some(state));
    }

    method SaveIdentity(state: IdentityState, outcome: WriteOutcome) returns (err: Option<StoreError>)
      modifies this`identity
      ensures err == WriteResult(outcome)
      ensures identity == Written(old(identity), state, outcome)
    {
      err := WriteResult(outcome);
      identity := Written(identity, state, outcome);
    }

    /** Replaces the contact with the same AID, or appends it. */
    method SaveContact(contact: ContactRecord, outcome: WriteOutcome) returns (err: Option<StoreError>)
      modifies this`contacts
      ensures err == WriteResult(outcome)
      ensures contacts == Written(old(contacts), Upsert(LoadOrEmpty(old(contacts)), ContactAid, contact), outcome)
    {
      var cs := LoadOrEmpty(contacts);
      cs := UpsertLoop(cs, ContactAid, contact);
      err := WriteResult(outcome);
      contacts := Written(contacts, cs, outcome);
    }

    method GetContacts() returns (r: Result<seq<ContactRecord>, StoreError>)
      ensures r == Load(contacts)
    {
      r := Load(contacts);
    }

    /** The first contact with the AID. */
    method GetContact(aid: string) returns (r: Result<Option<ContactRecord>, StoreError>)
      ensures r.Err? <==> contacts.Corrupt?
      ensures r.Ok? ==> r.value == Find(LoadOrEmpty(contacts), ContactAid, aid)
    {
      var loaded := Load(contacts);
      if loaded.Err? {
        return Err(loaded.error);
      }
      var found := FindLoop(loaded.value, ContactAid, aid);
      return Ok(found);
    }

    /** Drops every contact with the AID; an unreadable file is an error and is not written. */
    method DeleteContact(aid: string, outcome: WriteOutcome) returns (err: Option<StoreError>)
      modifies this`contacts
      ensures old(contacts).Corrupt? ==> err == Some(ReadFailed) && contacts == old(contacts)
      ensures !old(contacts).Corrupt? ==> err == WriteResult(outcome)
      ensures !old(contacts).Corrupt? ==>
        contacts == Written(old(contacts), Remove(LoadOrEmpty(old(contacts)), ContactAid, aid), outcome)
    {
      var loaded := Load(contacts);
      if loaded.Err? {
        return Some(loaded.error);
      }
      var filtered := SelectLoop(loaded.value, ContactAid, aid, false);
      err := WriteResult(outcome);
      contacts := Written(contacts, filtered, outcome);
    }

    /** Replaces the app with the same id, or appends it. */
    method SaveApp(app: AppRecord, outcome: WriteOutcome) returns (err: Option<StoreError>)
      modifies this`apps
      ensures err == WriteResult(outcome)
      ensures apps == Written(old(apps), Upsert(LoadOrEmpty(old(apps)), AppId, app), outcome)
    {
      var xs := LoadOrEmpty(apps);
      xs := UpsertLoop(xs, AppId, app);
      err := WriteResult(outcome);
      apps := Written(apps, xs, outcome);
    }

    method GetApps() returns (r: Result<seq<AppRecord>, StoreError>)
      ensures r == Load(apps)
    {
      r := Load(apps);
    }

    method GetApp(id: string) returns (r: Result<Option<AppRecord>, StoreError>)
      ensures r.Err? <==> apps.Corrupt?
      ensures r.Ok? ==> r.value == Find(LoadOrEmpty(apps), AppId, id)
    {
      var loaded := Load(apps);
      if loaded.Err? {
        return Err(loaded.error);
      }
      var found := FindLoop(loaded.value, AppId, id);
      return Ok(found);
    }

    method DeleteApp(id: string, outcome: WriteOutcome) returns (err: Option<StoreError>)
      modifies this`apps
      ensures old(apps).Corrupt? ==> err == Some(ReadFailed) && apps == old(apps)
      ensures !old(apps).Corrupt? ==> err == WriteResult(outcome)
      ensures !old(apps).Corrupt? ==>
        apps == Written(old(apps), Remove(LoadOrEmpty(old(apps)), AppId, id), outcome)
    {
      var loaded := Load(apps);
      if loaded.Err? {
        return Some(loaded.error);
      }
      var filtered := SelectLoop(loaded.value, AppId, id, false);
      err := WriteResult(outcome);
      apps := Written(apps, filtered, outcome);
    }

    /** Replaces the policy with the same id, or appends it. */
    method SavePolicy(policy: PolicyRecord, outcome: WriteOutcome) returns (err: Option<StoreError>)
      modifies this`policies
      ensures err == WriteResult(outcome)
      ensures policies == Written(old(policies), Upsert(LoadOrEmpty(old(policies)), PolicyId, policy), outcome)
    {
      var xs := LoadOrEmpty(policies);
      xs := UpsertLoop(xs, PolicyId, policy);
      err := WriteResult(outcome);
      policies := Written(policies, xs, outcome);
    }

    method GetPolicies() returns (r: Result<seq<PolicyRecord>, StoreError>)
      ensures r == Load(policies)
    {
      r := Load(policies);
    }

    method GetPolicy(id: string) returns (r: Result<Option<PolicyRecord>, StoreError>)
      ensures r.Err? <==> policies.Corrupt?
      ensures r.Ok? ==> r.value == Find(LoadOrEmpty(policies), PolicyId, id)
    {
      var loaded := Load(policies);
      if loaded.Err? {
        return Err(loaded.error);
      }
      var found := FindLoop(loaded.value, PolicyId, id);
      return Ok(found);
    }

    method DeletePolicy(id: string, outcome: WriteOutcome) returns (err: Option<StoreError>)
      modifies this`policies
      ensures old(policies).Corrupt? ==> err == Some(ReadFailed) && policies == old(policies)
      ensures !old(policies).Corrupt? ==> err == WriteResult(outcome)
      ensures !old(policies).Corrupt? ==>
        policies == Written(old(policies), Remove(LoadOrEmpty(old(policies)), PolicyId, id), outcome)
    {
      var loaded := Load(policies);
      if loaded.Err? {
        return Some(loaded.error);
      }
      var filtered := SelectLoop(loaded.value, PolicyId, id, false);
      err := WriteResult(outcome);
      policies := Written(policies, filtered, outcome);
    }

    /** Appends the entry and keeps the newest 1000; an unreadable log is started afresh. */
    method AppendAuditLog(entry: AuditLogEntry, outcome: WriteOutcome) returns (err: Option<StoreError>)
      modifies this`auditLog
      ensures err == WriteResult(outcome)
      ensures auditLog == Written(old(auditLog), AppendBounded(LoadOrEmpty(old(auditLog)), entry), outcome)
    {
      var entries := LoadOrEmpty(auditLog);
      entries := entries + [entry];
      if |entries| > MaxAuditEntries {
        entries := entries[|entries| - MaxAuditEntries..];
      }
      err := WriteResult(outcome);
      auditLog := Written(auditLog, entries, outcome);
    }

    /** The newest `limit` entries (all when `limit` is not positive), of one app when `appId` is not empty. */
    method GetAuditLog(appId: string, limit: int) returns (r: Result<seq<AuditLogEntry>, StoreError>)
      ensures r.Err? <==> auditLog.Corrupt?
      ensures r.Ok? ==> r.value == AuditQuery(LoadOrEmpty(auditLog), appId, limit)
    {
      var loaded := Load(auditLog);
      if loaded.Err? {
        return Err(loaded.error);
      }
      var entries := loaded.value;
      if appId != "" {
        entries := SelectLoop(entries, EntryAppId, appId, true);
      }
      if limit > 0 && |entries| > limit {
        entries := entries[|entries| - limit..];
      }
      return Ok(entries);
    }
  }

  // ----- what a sequence of store operations guarantees -----

  /** After saving an event, the identifier's events are the ones before followed by the new record. */
  lemma EventsAfterSave(events: seq<EventRecord>, record: EventRecord)
    ensures Select(events + [record], EventAid, record.aid, true) == Select(events, EventAid, record.aid, true) + [record]
    ensures forall aid :: aid != record.aid ==>
      Select(events + [record], EventAid, aid, true) == Select(events, EventAid, aid, true)
  {
    assert (events + [record])[..|events|] == events;
  }

  /**
   * A torn write of the KEL loses it: the truncated file no longer parses, so
   * the next `SaveEvent` starts from the empty list and the file then holds
   * the new record alone, whatever events it held before.
   */
  lemma TornKelIsLost(events: seq<EventRecord>, first: EventRecord, next: EventRecord)
    ensures var torn := Written(Stored(events), events + [first], Torn);
      Load(torn) == Err(ReadFailed)
      && Written(torn, LoadOrEmpty(torn) + [next], Done) == Stored([next])
  {
    var torn := Written(Stored(events), events + [first], Torn);
    assert LoadOrEmpty(torn) == [];
    assert [] + [next] == [next];
  }
}
