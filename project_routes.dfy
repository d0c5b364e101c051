/**
 * The data transforms of the project routes (backend/routes/projectRoutes.js):
 * the stage template of a new project, the status a new project gets, the
 * body a new project is created from, the partial update of a stored
 * project with the logs that come with it, and the upload of business-case
 * files. The database is a parameter: the ids of the stored projects, and
 * the stored project as an object of class `ProjectDocument`.
 */
module ProjectRoutes {
  import opened Base
  import opened Text
  import opened ProjectModel
  import opened ChangeLog
  import opened ProjectIds
  import opened ActivityLog
  import opened Milestones
  import opened BusinessCases

  // ---- the stage template ----

  /** A stage of the template: no owner, no dates, no remarks, not started. */
  function TemplateStage(name: string, weight: nat): Stage {
    Stage(name, "", weight, "", "", "", "", "", "Yet to Start")
  }

  /** `defaultStages`. */
  const DefaultStages: seq<Stage> := [
    TemplateStage("Concept", 10),
    TemplateStage("Business case approval", 5),
    TemplateStage("IT Infra and security", 15),
    TemplateStage("Vendor onboarding", 5),
    TemplateStage("Execution & Delivery", 55),
    TemplateStage("UAT", 5),
    TemplateStage("Go-Live and support", 5)
  ]

  /** The template has seven stages whose weights sum to 100. */
  lemma DefaultStagesWeights()
    ensures |DefaultStages| == 7
    ensures TotalWeight(DefaultStages) == 100
  {
    var d := DefaultStages;
    assert TotalWeight(d[6..]) == 5;
    assert TotalWeight(d[5..]) == 10;
    assert TotalWeight(d[4..]) == 65;
    assert TotalWeight(d[3..]) == 70;
    assert TotalWeight(d[2..]) == 85;
    assert TotalWeight(d[1..]) == 90;
  }

  /**
   * Every template stage is not started, without owner, dates or remarks,
   * with a status the stage schema accepts, and under a name of its own.
   */
  lemma DefaultStagesBlank()
    ensures forall i :: 0 <= i < |DefaultStages| ==>
      DefaultStages[i] == TemplateStage(DefaultStages[i].name, DefaultStages[i].weight)
    ensures forall i :: 0 <= i < |DefaultStages| ==> CastStageStatus(Some(DefaultStages[i].status)) == Ok(YetToStart)
    ensures forall i, j :: 0 <= i < j < |DefaultStages| ==> DefaultStages[i].name != DefaultStages[j].name
  {
  }

  /** The schema accepts every template stage. */
  lemma DefaultStagesPassSchema()
    ensures forall i :: 0 <= i < |DefaultStages| ==> StagePassesSchema(DefaultStages[i])
  {
    DefaultStagesBlank();
    forall i | 0 <= i < |DefaultStages| ensures DefaultStages[i].name != "" {
      assert |DefaultStages[i].name| > 0;
    }
  }

  /** A new project starts at 0% and "0/7 Completed". */
  lemma DefaultStagesProgress()
    ensures Progress(DefaultStages) == 0
    ensures StatusSummary(DefaultStages) == "0/7 Completed"
  {
    DefaultStagesNoneCompleted();
    assert Progress(DefaultStages) == 0 by {
      DefaultStagesWeights();
      CompletedWeightNoneCompleted(DefaultStages);
    }
    assert CompletedCount(DefaultStages) == 0 by {
      NoneCompletedCount(DefaultStages);
    }
    assert NatToString(0) == "0" && NatToString(7) == "7";
    SummaryOfCounts("0", "7");
  }

  lemma DefaultStagesNoneCompleted()
    ensures forall i :: 0 <= i < |DefaultStages| ==> !IsCompleted(DefaultStages[i])
  {
    forall i | 0 <= i < |DefaultStages| ensures !IsCompleted(DefaultStages[i]) {
      assert |DefaultStages[i].status| == |"Yet to Start"| != |"Completed"|;
    }
  }

  lemma SummaryOfCounts(done: string, total: string)
    requires done == "0" && total == "7"
    ensures done + "/" + total + " Completed" == "0/7 Completed"
  {
  }

  lemma {:induction false} NoneCompletedCount(stages: seq<Stage>)
    requires forall i :: 0 <= i < |stages| ==> !IsCompleted(stages[i])
    ensures CompletedCount(stages) == 0
    decreases |stages|
  {
    if stages != [] {
      NoneCompletedCount(stages[1..]);
    }
  }

  // ---- the status of a new project ----

  /** The values of a JSON request body the routes tell apart. */
  datatype Value = Str(s: string) | StageList(stages: seq<Stage>) | OtherValue

  /** `validStatuses`, the same four values the project schema admits. */
  const ValidStatuses: seq<string> := ["Work in Progress", "Completed", "On Hold", "Delay"]

  /** The requested `projectStatus` when it is one of the valid values, "Work in Progress" otherwise. */
  function ProjectStatus(requested: Option<Value>): (r: string)
    ensures r in ValidStatuses
  {
    match requested
    case Some(Str(s)) => if s in ValidStatuses then s else "Work in Progress"
    case _ => "Work in Progress"
  }

  /** A valid status is kept, anything else (absent, empty, unknown, not a string) becomes the default. */
  lemma ProjectStatusDefaulting(requested: Option<Value>)
    ensures ProjectStatus(requested) == "Work in Progress" || requested == Some(Str(ProjectStatus(requested)))
    ensures (requested.Some? && requested.value.Str? && requested.value.s in ValidStatuses)
      <==> requested == Some(Str(ProjectStatus(requested)))
    ensures ProjectStatus(Some(Str(ProjectStatus(requested)))) == ProjectStatus(requested)
  {
  }

  function Lookup(body: map<string, Value>, key: string): Option<Value> {
    if key in body then Some(body[key]) else None
  }

  // ---- the body a new project is created from ----

  /** `optionalFields`: the fields whose empty value is left to the schema default. */
  const OptionalFields: seq<string> := [
    "businessCaseLink",
    "objectives",
    "projectOwnerPrimaryEmail",
    "projectOwnerPrimaryContact",
    "projectOwnerAlternateEmail",
    "businessOwnerPrimaryEmail",
    "businessOwnerPrimaryContact",
    "businessOwnerAlternateEmail",
    "overallProjectSummary"
  ]

  /** The keys the route sets itself. */
  const ServerKeys: set<string> := {"projectId", "projectStatus", "stages"}

  /** Deletes every optional field whose value is the empty string; nothing else changes. */
  method RemoveEmptyOptionalFields(data: map<string, Value>) returns (r: map<string, Value>)
    ensures forall k :: k in r <==> k in data && !(k in OptionalFields && data[k] == Str(""))
    ensures forall k :: k in r ==> r[k] == data[k]
  {
    r := data;
    for i := 0 to |OptionalFields|
      invariant forall k :: k in r <==> k in data && !(k in OptionalFields[..i] && data[k] == Str(""))
      invariant forall k :: k in r ==> r[k] == data[k]
    {
      var field := OptionalFields[i];
      assert OptionalFields[..i + 1] == OptionalFields[..i] + [field];
      if field in r && r[field] == Str("") {
        r := r - {field};
      }
    }
    assert OptionalFields[..|OptionalFields|] == OptionalFields;
  }

  /**
   * `projectData` of the create route: the request body with the id, the
   * status and a copy of the template set by the route, and the empty
   * optional fields removed. The id is the one `generateProjectId` gives:
   * the successor of the id that sorts last as a string (see `ProjectIds`,
   * where `NextProjectIdFreshBelowThousand` says when it is a new id).
   */
  method CreateProjectData(body: map<string, Value>, storedIds: seq<string>) returns (data: map<string, Value>)
    ensures "projectId" in data && data["projectId"] == Str(NextProjectId(storedIds))
    ensures "projectStatus" in data && data["projectStatus"] == Str(ProjectStatus(Lookup(body, "projectStatus")))
    ensures "stages" in data && data["stages"] == StageList(DefaultStages)
    ensures forall k :: k !in ServerKeys ==>
      (k in data <==> k in body && !(k in OptionalFields && body[k] == Str("")))
    ensures forall k :: k in data && k !in ServerKeys ==> data[k] == body[k]
  {
    var projectId := NextProjectId(storedIds);
    var projectStatus := ProjectStatus(Lookup(body, "projectStatus"));
    var projectData := body["projectId" := Str(projectId)]["projectStatus" := Str(projectStatus)]["stages" := StageList(DefaultStages)];
    assert forall k :: k in ServerKeys ==> k !in OptionalFields;
    data := RemoveEmptyOptionalFields(projectData);
  }

  /** The text fields of a new project the schema marks `required`. */
  const RequiredFields: seq<string> := ["projectId", "projectName", "department", "techDepartment", "projectOwner", "businessOwner"]

  /** The field holds a non-empty text, as `required` demands of a string path. */
  predicate HasText(data: map<string, Value>, k: string) {
    k in data && data[k].Str? && data[k].s != ""
  }

  /**
   * A new document the schema accepts: every required field holds a
   * non-empty text, and a status, a priority or a list of stages, when
   * given, is one the enums and the stage schema admit.
   */
  predicate NewDocumentPassesSchema(data: map<string, Value>) {
    (forall i :: 0 <= i < |RequiredFields| ==> HasText(data, RequiredFields[i]))
    && ("projectStatus" in data ==> data["projectStatus"].Str? && data["projectStatus"].s in ValidStatuses)
    && ("priority" in data ==> data["priority"].Str? && CastPriority(Some(data["priority"].s)).Ok?)
    && ("stages" in data ==>
          data["stages"].StageList? && forall i :: 0 <= i < |data["stages"].stages| ==> StagePassesSchema(data["stages"].stages[i]))
  }

  /** The unique index on `projectId` already holds the document's id. */
  predicate IdTaken(data: map<string, Value>, storedIds: seq<string>) {
    "projectId" in data && data["projectId"].Str? && data["projectId"].s in storedIds
  }

  /** The answer of the create route: 201 with the stored document, or 400. */
  datatype CreateOutcome = Created(document: map<string, Value>) | CreateRefused

  /**
   * The create route: builds `projectData` and saves it. The save fails,
   * and the route answers 400, when the schema refuses the document or when
   * the generated id is taken.
   */
  method CreateProject(body: map<string, Value>, storedIds: seq<string>) returns (outcome: CreateOutcome)
    ensures outcome.Created? <==>
      (forall i :: 1 <= i < |RequiredFields| ==> HasText(body, RequiredFields[i]))
      && ("priority" in body ==> body["priority"].Str? && CastPriority(Some(body["priority"].s)).Ok?)
      && NextProjectId(storedIds) !in storedIds
    ensures outcome.Created? ==>
      "projectId" in outcome.document && outcome.document["projectId"] == Str(NextProjectId(storedIds))
      && "stages" in outcome.document && outcome.document["stages"] == StageList(DefaultStages)
  {
    var data := CreateProjectData(body, storedIds);
    RequiredFieldsFromBody();
    DefaultStagesPassSchema();
    GeneratedIdNotEmpty(storedIds);
    if NewDocumentPassesSchema(data) && !IdTaken(data, storedIds) {
      outcome := Created(data);
    } else {
      outcome := CreateRefused;
    }
  }

  /** The required fields other than the id, and the priority, come from the body untouched. */
  lemma RequiredFieldsFromBody()
    ensures RequiredFields[0] == "projectId"
    ensures forall i :: 1 <= i < |RequiredFields| ==> RequiredFields[i] !in ServerKeys && RequiredFields[i] !in OptionalFields
    ensures "priority" !in ServerKeys && "priority" !in OptionalFields
  {
  }

  /** Every generated id starts with "PRJ". */
  lemma GeneratedIdNotEmpty(storedIds: seq<string>)
    ensures NextProjectId(storedIds) != ""
  {
    var id := NextProjectId(storedIds);
    assert |id| >= 3;
  }

  // ---- the partial update ----

  /** The fields of a PATCH body the route reads; an absent field is `None`. */
  datatype PatchBody = PatchBody(
    stages: Option<Value>,
    startDate: Option<string>,
    endDate: Option<string>,
    overallProjectSummary: Option<string>,
    priority: Option<string>,
    logs: seq<LogBody>)

  /** `v` when given, `current` otherwise. */
  function Given<T>(v: Option<T>, current: T): T {
    if v.Some? then v.value else current
  }

  /** The project after the PATCH route's assignments. */
  function Patched(p: Project, body: PatchBody): Project {
    p.(stages := if body.stages.Some? && body.stages.value.StageList? then body.stages.value.stages else p.stages,
       startDate := Given(body.startDate, p.startDate),
       endDate := Given(body.endDate, p.endDate),
       overallProjectSummary := Given(body.overallProjectSummary, p.overallProjectSummary),
       priority := Given(body.priority, p.priority))
  }

  /** The answer of the PATCH route for a found project: saved with the log entries to insert, or 400. */
  datatype PatchOutcome = PatchSaved(entries: seq<LogEntry>) | PatchRefused

  /** The fields a PATCH body sets pass the schema: a priority label, named stages with status labels. */
  predicate PatchBodyPasses(body: PatchBody) {
    (body.priority.Some? ==> CastPriority(body.priority).Ok?)
    && (body.stages.Some? && body.stages.value.StageList? ==>
        forall i :: 0 <= i < |body.stages.value.stages| ==> StagePassesSchema(body.stages.value.stages[i]))
  }

  /** On a project the schema accepts, the update is refused exactly when a field it sets is refused. */
  lemma PatchPassesSchema(p: Project, body: PatchBody)
    requires PassesSchema(p)
    ensures PassesSchema(Patched(p, body)) <==> PatchBodyPasses(body)
  {
  }

  /** Sending the same PATCH twice changes nothing the first did not. */
  lemma PatchIdempotent(p: Project, body: PatchBody)
    ensures Patched(Patched(p, body), body) == Patched(p, body)
  {
  }

  /** A body without any of the fields leaves the project as it is. */
  lemma EmptyPatchKeepsProject(p: Project, logs: seq<LogBody>)
    ensures Patched(p, PatchBody(None, None, None, None, None, logs)) == p
  {
  }

  /**
   * The update never touches the identity of a project, replaces the stages
   * only with a list, and sets every other field exactly when it is given.
   */
  lemma PatchFields(p: Project, body: PatchBody)
    ensures var q := Patched(p, body);
      q.projectId == p.projectId && q.projectName == p.projectName
      && q.department == p.department && q.projectOwner == p.projectOwner
      && (q.stages != p.stages ==> body.stages.Some? && body.stages.value.StageList?)
      && (body.stages.Some? && !body.stages.value.StageList? ==> q.stages == p.stages)
      && (q.startDate != p.startDate ==> body.startDate == Some(q.startDate))
      && (q.endDate != p.endDate ==> body.endDate == Some(q.endDate))
      && (q.overallProjectSummary != p.overallProjectSummary ==> body.overallProjectSummary == Some(q.overallProjectSummary))
      && (q.priority != p.priority ==> body.priority == Some(q.priority))
  {
  }

  /** Two updates in a row that set different fields give the same project in either order. */
  lemma PatchesCommute(p: Project, a: PatchBody, b: PatchBody)
    requires a.stages.None? || b.stages.None? || !a.stages.value.StageList? || !b.stages.value.StageList?
    requires a.startDate.None? || b.startDate.None?
    requires a.endDate.None? || b.endDate.None?
    requires a.overallProjectSummary.None? || b.overallProjectSummary.None?
    requires a.priority.None? || b.priority.None?
    ensures Patched(Patched(p, a), b) == Patched(Patched(p, b), a)
  {
  }

  /**
   * The body the edit form sends on save (`updateProjectStages` with the
   * form's stages, dates, summary and logs; `priority` is not passed, so
   * it is absent from the JSON).
   */
  function SavedFormBody(st: Snapshot, changes: seq<ChangeRecord>): PatchBody {
    PatchBody(Some(StageList(st.stages)), Some(st.startDate), Some(st.endDate), Some(st.summary), None,
              seq(|changes|, i requires 0 <= i < |changes| => SentLog(changes[i])))
  }

  /**
   * Saving the edit form stores what the form shows, leaves the priority
   * alone, and logs every change record, in order, so that reading the logs
   * back shows the record again.
   */
  lemma SavingTheFormStoresIt(p: Project, st: Snapshot, changes: seq<ChangeRecord>, projectKey: string, now: int)
    requires forall i :: 0 <= i < |changes| ==> changes[i].fieldName != ""
    ensures Patched(p, SavedFormBody(st, changes))
      == p.(stages := st.stages, startDate := st.startDate, endDate := st.endDate, overallProjectSummary := st.summary)
    ensures Progress(Patched(p, SavedFormBody(st, changes)).stages) == Progress(st.stages)
    ensures var logs := LogEntries(projectKey, SavedFormBody(st, changes).logs, now);
      |logs| == |changes|
      && forall i :: 0 <= i < |changes| ==>
        Storable(logs[i])
        && ShowLog(FormatLog(logs[i]))
           == ShownLog(changes[i].fieldName, FormatDateForDisplay(OrEmpty(changes[i].previousValue)),
                       FormatDateForDisplay(OrEmpty(changes[i].newValue)), Or(changes[i].stageName, "N/A"), "Current User")
  {
    var body := SavedFormBody(st, changes);
    forall i | 0 <= i < |changes|
      ensures Storable(LogEntries(projectKey, body.logs, now)[i])
      ensures ShowLog(FormatLog(LogEntries(projectKey, body.logs, now)[i]))
           == ShownLog(changes[i].fieldName, FormatDateForDisplay(OrEmpty(changes[i].previousValue)),
                       FormatDateForDisplay(OrEmpty(changes[i].newValue)), Or(changes[i].stageName, "N/A"), "Current User")
    {
      LogRoundTrip(changes[i], projectKey, now);
    }
  }

  /**
   * The form never sends a priority, so on a project the schema accepts its
   * save is refused exactly when one of the form's stages is refused.
   */
  lemma SavedFormPassesSchema(p: Project, st: Snapshot, changes: seq<ChangeRecord>)
    requires PassesSchema(p)
    ensures PassesSchema(Patched(p, SavedFormBody(st, changes)))
      <==> forall i :: 0 <= i < |st.stages| ==> StagePassesSchema(st.stages[i])
  {
    PatchPassesSchema(p, SavedFormBody(st, changes));
  }

  // ---- uploads ----

  /** The answer of the upload route. */
  datatype UploadOutcome = NoFilesUploaded | Uploaded(message: string)

  /** "Business Case uploaded successfully", plural for more than one file. */
  function UploadMessage(count: nat): string {
    if count > 1 then "Business Cases uploaded successfully" else "Business Case uploaded successfully"
  }

  /** A legacy single record counts when it names a file. */
  predicate HasLegacy(legacy: Option<BusinessCase>) {
    legacy.Some? && legacy.value.fileName != ""
  }

  /** The stored project document the routes update in place. */
  class ProjectDocument {
    var projectId: string
    var projectName: string
    var department: string
    var projectOwner: string
    var startDate: string
    var endDate: string
    var priority: string
    var overallProjectSummary: string
    var stages: seq<Stage>
    var businessCase: Option<BusinessCase>
    var businessCases: seq<BusinessCase>

    constructor (p: Project, cases: seq<BusinessCase>, legacy: Option<BusinessCase>)
      ensures AsProject() == p && businessCases == cases && businessCase == legacy
    {
      projectId, projectName, department, projectOwner := p.projectId, p.projectName, p.department, p.projectOwner;
      startDate, endDate, priority := p.startDate, p.endDate, p.priority;
      overallProjectSummary, stages := p.overallProjectSummary, p.stages;
      businessCases, businessCase := cases, legacy;
    }

    /** The project fields of the document. */
    function AsProject(): Project
      reads this
    {
      Project(projectId, projectName, department, projectOwner, startDate, endDate, priority, overallProjectSummary, stages)
    }

    /**
     * The PATCH route: assigns the given fields and saves the document. When
     * the schema refuses the result the save fails, the route answers 400
     * and neither the document nor the logs are stored; otherwise it returns
     * the log entries to insert, one per log body, stamped with `now`.
     */
    method ApplyPatch(body: PatchBody, projectKey: string, now: int) returns (outcome: PatchOutcome)
      modifies this
      ensures PassesSchema(Patched(old(AsProject()), body)) ==>
        AsProject() == Patched(old(AsProject()), body) && outcome == PatchSaved(LogEntries(projectKey, body.logs, now))
      ensures !PassesSchema(Patched(old(AsProject()), body)) ==>
        AsProject() == old(AsProject()) && outcome == PatchRefused
      ensures businessCases == old(businessCases) && businessCase == old(businessCase)
    {
      if !PassesSchema(Patched(AsProject(), body)) {
        return PatchRefused;
      }
      stages := if body.stages.Some? && body.stages.value.StageList? then body.stages.value.stages else stages;
      startDate := Given(body.startDate, startDate);
      endDate := Given(body.endDate, endDate);
      overallProjectSummary := Given(body.overallProjectSummary, overallProjectSummary);
      priority := Given(body.priority, priority);
      var entries := [];
      if |body.logs| > 0 {
        entries := LogEntries(projectKey, body.logs, now);
      }
      outcome := PatchSaved(entries);
    }

    /**
     * The upload route for a found project: refuses an empty upload;
     * otherwise moves a legacy record into the list, clears it, and
     * replaces the list by the merge of its normalised records and the
     * new files.
     */
    method UploadBusinessCases(files: seq<UploadedFile>, now: int) returns (outcome: UploadOutcome)
      modifies this
      ensures AsProject() == old(AsProject())
      ensures files == [] ==>
        outcome == NoFilesUploaded && businessCases == old(businessCases) && businessCase == old(businessCase)
      ensures files != [] ==> outcome == Uploaded(UploadMessage(|files|))
      ensures files != [] ==>
        businessCases == MergedCases(Migrated(old(businessCases), old(businessCase), now), files, now)
      ensures files != [] ==>
        businessCase == (if HasLegacy(old(businessCase)) then None else old(businessCase))
    {
      if files == [] {
        return NoFilesUploaded;
      }
      if HasLegacy(businessCase) {
        businessCases := businessCases + [NormalizeCase(businessCase.value, now)];
        businessCase := None;
      }
      businessCases := MergedCases(businessCases, files, now);
      outcome := Uploaded(UploadMessage(|files|));
    }
  }

  /**
   * After an upload the project lists the files it had, then the legacy
   * file if there was one, then the uploaded files, in order.
   */
  lemma UploadKeepsEveryFile(cases: seq<BusinessCase>, legacy: Option<BusinessCase>, files: seq<UploadedFile>, now: int)
    ensures FileNames(MergedCases(Migrated(cases, legacy, now), files, now))
      == FileNames(cases) + (if HasLegacy(legacy) then [legacy.value.fileName] else []) + UploadedNames(files)
  {
    MergedCasesShape(Migrated(cases, legacy, now), files, now);
    if HasLegacy(legacy) {
      assert FileNames(cases + [NormalizeCase(legacy.value, now)]) == FileNames(cases) + [legacy.value.fileName];
    }
  }

  /** The message names one case or several. */
  lemma UploadMessagePlural(count: nat)
    ensures count <= 1 ==> UploadMessage(count) == "Business Case uploaded successfully"
    ensures count > 1 ==> UploadMessage(count) == "Business Cases uploaded successfully"
  {
  }
}
