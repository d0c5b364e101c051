/**
 * The change log on its way through the tiers: the edit form turns its
 * change records into log bodies (frontend/src/components/EditStatusModal.jsx,
 * `createLogsFromChanges`), the PATCH route maps each body to a stored
 * `ProjectLog` entry with fallbacks (backend/routes/projectRoutes.js), the
 * logs route formats stored entries for the client, and the form's
 * `fetchLogs` maps them back to displayed records.
 *
 * A JavaScript value that is absent or falsy is the empty string here.
 */
module ActivityLog {
  import opened Base
  import opened ChangeLog
  import opened Milestones

  /** `a || b` on strings. */
  function Or(a: string, b: string): (r: string)
    ensures a != "" ==> r == a
    ensures a == "" ==> r == b
  {
    if a != "" then a else b
  }

  /** A log as the client sends it; both the client's and the stored field names are accepted. */
  datatype LogBody = LogBody(
    stageName: string,
    fieldName: string,
    fieldChanged: string,
    previousValue: string,
    oldValue: string,
    newValue: string,
    user: string,
    changedBy: string)

  /** A stored `ProjectLog` document (its `_id` is left out). */
  datatype LogEntry = LogEntry(
    projectKey: string,
    stageName: string,
    fieldChanged: string,
    oldValue: string,
    newValue: string,
    changedAt: int,
    changedBy: string)

  /** A log as the logs route returns it (`id`, `timestamp` and `projectName` are left out). */
  datatype FormattedLog = FormattedLog(fieldName: string, previousValue: string, newValue: string, stageName: string, user: string)

  /** A log as the edit form shows it after `fetchLogs`. */
  datatype ShownLog = ShownLog(fieldName: string, previousValue: string, newValue: string, stageName: string, user: string)

  /** `createLogsFromChanges` for one change record: the form signs every log as "Current User". */
  function SentLog(c: ChangeRecord): LogBody {
    LogBody(c.stageName, c.fieldName, "", c.previousValue, "", c.newValue, "Current User", "")
  }

  /** The PATCH route's mapping of one log body to a stored entry. */
  function ToLogEntry(projectKey: string, log: LogBody, now: int): (e: LogEntry)
    ensures e.projectKey == projectKey && e.changedAt == now
    ensures e.stageName != "" && e.changedBy != ""
  {
    LogEntry(
      projectKey,
      Or(log.stageName, "N/A"),
      Or(log.fieldName, log.fieldChanged),
      Or(log.previousValue, Or(log.oldValue, "")),
      Or(log.newValue, ""),
      now,
      Or(log.user, Or(log.changedBy, "System")))
  }

  /** The entries the PATCH route inserts for its `logs`. */
  function LogEntries(projectKey: string, logs: seq<LogBody>, now: int): (r: seq<LogEntry>)
    ensures |r| == |logs|
  {
    seq(|logs|, i requires 0 <= i < |logs| => ToLogEntry(projectKey, logs[i], now))
  }

  /** `fieldChanged` is a required field of the log schema: an entry without it is refused. */
  predicate Storable(e: LogEntry) {
    e.fieldChanged != ""
  }

  /** The logs route's shape for one stored entry. */
  function FormatLog(e: LogEntry): FormattedLog {
    FormattedLog(e.fieldChanged, e.oldValue, e.newValue, e.stageName, e.changedBy)
  }

  /** `fetchLogs` for one formatted log: dates in the values are shown "dd-mm-yyyy". */
  function ShowLog(f: FormattedLog): ShownLog {
    ShownLog(
      f.fieldName,
      FormatDateForDisplay(Or(f.previousValue, "(empty)")),
      FormatDateForDisplay(Or(f.newValue, "(empty)")),
      Or(f.stageName, "N/A"),
      Or(f.user, "System"))
  }

  // ---- properties ----

  /** Each stored entry takes the client's name for a field first and falls back to the stored name. */
  lemma ToLogEntryFallbacks(projectKey: string, log: LogBody, now: int)
    ensures var e := ToLogEntry(projectKey, log, now);
      (log.fieldName != "" ==> e.fieldChanged == log.fieldName)
      && (log.fieldName == "" ==> e.fieldChanged == log.fieldChanged)
      && (log.previousValue != "" ==> e.oldValue == log.previousValue)
      && (log.previousValue == "" ==> e.oldValue == log.oldValue)
      && (log.stageName != "" ==> e.stageName == log.stageName)
      && (log.stageName == "" ==> e.stageName == "N/A")
      && (log.user == "" && log.changedBy == "" ==> e.changedBy == "System")
      && (log.user != "" ==> e.changedBy == log.user)
  {
  }

  /** One entry per log body, in the order of the bodies. */
  lemma LogEntriesInOrder(projectKey: string, logs: seq<LogBody>, now: int, i: nat)
    requires i < |logs|
    ensures LogEntries(projectKey, logs, now)[i] == ToLogEntry(projectKey, logs[i], now)
    ensures LogEntries(projectKey, logs + [logs[i]], now)[..|logs|] == LogEntries(projectKey, logs, now)
  {
  }

  /** A log body that already carries the stored names is stored as it is. */
  lemma StoredNamesKept(projectKey: string, e: LogEntry, now: int)
    requires e.stageName != "" && e.changedBy != "" && e.changedAt == now && e.projectKey == projectKey
    ensures ToLogEntry(projectKey, LogBody("", "", e.fieldChanged, "", e.oldValue, e.newValue, "", e.changedBy), now)
      == e.(stageName := "N/A")
    ensures ToLogEntry(projectKey, LogBody(e.stageName, "", e.fieldChanged, "", e.oldValue, e.newValue, "", e.changedBy), now)
      == e
  {
  }

  /**
   * A change record the form sends comes back from the logs route as the
   * same record: the field name and values are kept, an empty value is shown
   * as "(empty)", a missing stage as "N/A", and the author is "Current User".
   */
  lemma LogRoundTrip(c: ChangeRecord, projectKey: string, now: int)
    requires c.fieldName != ""
    ensures Storable(ToLogEntry(projectKey, SentLog(c), now))
    ensures ShowLog(FormatLog(ToLogEntry(projectKey, SentLog(c), now)))
      == ShownLog(c.fieldName, FormatDateForDisplay(OrEmpty(c.previousValue)), FormatDateForDisplay(OrEmpty(c.newValue)),
                  Or(c.stageName, "N/A"), "Current User")
  {
  }

  /**
   * A record of the pending list (values already "(empty)" for empty, stage
   * given) whose values are not dates is shown exactly as it was recorded;
   * a date value is shown "dd-mm-yyyy", from which the stored form can be
   * read back.
   */
  lemma PendingRecordRoundTrip(c: ChangeRecord, projectKey: string, now: int)
    requires c.fieldName != "" && c.stageName != ""
    requires c.previousValue != "" && c.newValue != ""
    ensures var shown := ShowLog(FormatLog(ToLogEntry(projectKey, SentLog(c), now)));
      (!IsIsoShape(c.previousValue) && !IsIsoShape(c.newValue) ==>
         ChangeRecord(shown.fieldName, shown.previousValue, shown.newValue, shown.stageName) == c)
      && (IsIsoShape(c.newValue) ==>
         shown.newValue[6..] + "-" + shown.newValue[3..5] + "-" + shown.newValue[..2] == c.newValue)
  {
    LogRoundTrip(c, projectKey, now);
    if IsIsoShape(c.newValue) {
      FormatDateForDisplayInvertible(c.newValue);
    }
  }

  /** A log body without any field name makes an entry the log schema refuses. */
  lemma NamelessLogNotStorable(projectKey: string, log: LogBody, now: int)
    requires log.fieldName == "" && log.fieldChanged == ""
    ensures !Storable(ToLogEntry(projectKey, log, now))
  {
  }
}
