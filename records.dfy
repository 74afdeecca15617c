/**
 * The rows of the three backend tables as the views and forms hold them.
 * A row is a JavaScript object with a known set of keys; each record keeps its
 * fields in a map keyed by field name, and a key that is absent stands for a
 * field that is null or undefined.
 */
module ActionItems {
  import opened Wrappers

  /** The columns of the `actions` table that the form and list touch. */
  datatype ActionField =
    | DateRaised | RaisedBy | Source | Department | Responsibility | Contractor
    | Discipline | Aspect | PlantArea | MainEquipment | Issue | ActionDetails
    | NextSteps | Constraints | Comments | Priority | Status | ProgressReport
    | TrainingAndAwareness | ActionStartDate | ActionCompletionDate
    | LearningPoints | AttachmentUrl | TrainingCompDate | TargetDate

  /** A row of `actions`; every column besides the id holds text. */
  datatype ActionItem = ActionItem(id: Option<string>, fields: map<ActionField, string>)
}

module DailyLogs {
  import opened Wrappers

  datatype LogText =
    | LogBy | Department | Discipline | LogType | DailyLogDetails
    | SafetyIncidentDetails | BreakdownDetails | DowntimeDetails
    | WorkNotCompletedDetails | PlannedWorkNextDay | Daily5sLog | ReworkDetails

  datatype LogFlag =
    | SafetyIncidents | SafetyOpportunityRaised | Daily5sCompleted
    | AllPermitsSignedOff | AnyTrainingCompleted | AnyReworkReported
    | AllWorkDayCompleted | AllMrClosed | AllPrGenerated
    | IsReceiptingUpToDate | IsAccrualsListUpdated

  datatype LogCounter =
    | BreakdownHours | DowntimeHours | SafetyOpsCount
    | PlannedTasksCount | ReactiveTasksCount | PreventativeTasksCount

  /**
   * A numeric column: a number, or the raw text of a number input, which the
   * form stores as typed.
   */
  datatype Counter = Number(value: real) | Typed(raw: string)

  /** A row of `daily_logs`, its columns grouped by kind. */
  datatype DailyLog = DailyLog(
    id: Option<string>,
    text: map<LogText, string>,
    flags: map<LogFlag, bool>,
    counters: map<LogCounter, Counter>)

  /** JavaScript truthiness of a boolean column: present and true. */
  predicate FlagSet(log: DailyLog, f: LogFlag)
  {
    f in log.flags && log.flags[f]
  }
}

module TrainingRecords {
  import opened Wrappers

  datatype TrainingField =
    | TraineeName | Trainer | TrainingTopic | TrainingAspect
    | TrainingMethod | CompetencyTestType | TrainingOverview

  /** A row of `training`; a null `is_completed` reads as false, as it does in every test of it. */
  datatype TrainingRecord = TrainingRecord(
    id: Option<string>,
    text: map<TrainingField, string>,
    isCompleted: bool)
}
