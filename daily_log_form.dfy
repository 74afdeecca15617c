/**
 * The daily log form: one `daily_logs` row being created or edited, the three
 * option lists of its selects, the field setters and the submit that saves
 * the row. The form is never cleared after a save.
 */
module DailyLogForms {
  import opened Wrappers
  import opened Backend
  import opened DailyLogs

  const Table := "daily_logs"

  /**
   * The empty form: the log type is the daily engineering log, every check box
   * is clear, every counter is 0 and every other text is blank.
   */
  function DefaultLog(): (l: DailyLog)
    ensures l.id.None?
    ensures forall t: LogText :: t in l.text && (t == LogType <==> l.text[t] == "Daily Engineering Log")
    ensures forall t: LogText :: t != LogType ==> l.text[t] == ""
    ensures forall f: LogFlag :: f in l.flags && !l.flags[f]
    ensures forall c: LogCounter :: c in l.counters && l.counters[c] == Number(0.0)
  {
    var l := DailyLog(
      None,
      map[LogBy := "", Department := "", Discipline := "", LogType := "Daily Engineering Log",
          DailyLogDetails := "", SafetyIncidentDetails := "", BreakdownDetails := "",
          DowntimeDetails := "", WorkNotCompletedDetails := "", PlannedWorkNextDay := "",
          Daily5sLog := "", ReworkDetails := ""],
      map[SafetyIncidents := false, SafetyOpportunityRaised := false, Daily5sCompleted := false,
          AllPermitsSignedOff := false, AnyTrainingCompleted := false, AnyReworkReported := false,
          AllWorkDayCompleted := false, AllMrClosed := false, AllPrGenerated := false,
          IsReceiptingUpToDate := false, IsAccrualsListUpdated := false],
      map[BreakdownHours := Number(0.0), DowntimeHours := Number(0.0), SafetyOpsCount := Number(0.0),
          PlannedTasksCount := Number(0.0), ReactiveTasksCount := Number(0.0),
          PreventativeTasksCount := Number(0.0)]);
    // each of the three maps has an entry for every constructor
    assert forall t: LogText :: t.LogBy? || t in l.text;
    assert forall f: LogFlag :: f.SafetyIncidents? || f in l.flags;
    assert forall c: LogCounter :: c.BreakdownHours? || c in l.counters;
    l
  }

  /** A fresh form shows no safety incident. */
  lemma DefaultLogHasNoIncident()
    ensures !FlagSet(DefaultLog(), SafetyIncidents)
  {
  }

  /** The enums fetched for the selects, in the order they are requested. */
  const EnumNames: seq<string> := ["staff_name", "dept_name", "discipline_type"]

  /** A list after its enum is fetched: replaced when the backend answers with a list, kept otherwise. */
  function ListAfterFetch(list: seq<string>, answer: Option<seq<string>>): (r: seq<string>)
    ensures answer.Some? ==> r == answer.value
    ensures answer.None? ==> r == list
  {
    if answer.Some? then answer.value else list
  }

  class DailyLogForm {
    /** Whether the parent passed an `onComplete` callback. */
    const hasOnComplete: bool
    var formData: DailyLog
    var staffList: seq<string>
    var deptList: seq<string>
    var disciplineList: seq<string>
    var loading: bool
    /** The backend requests issued so far, with the loading flag's changes and callback invocations. */
    ghost var trace: seq<Effect<DailyLog>>

    constructor(hasOnComplete: bool)
      ensures this.hasOnComplete == hasOnComplete
      ensures formData == DefaultLog()
      ensures staffList == [] && deptList == [] && disciplineList == []
      ensures !loading && trace == []
    {
      this.hasOnComplete := hasOnComplete;
      formData := DefaultLog();
      staffList, deptList, disciplineList := [], [], [];
      loading := false;
      trace := [];
    }

    /** The `initialData` effect: a record handed in replaces the whole form; none leaves it. */
    method ReceiveInitialData(initialData: Option<DailyLog>)
      modifies this
      ensures initialData.Some? ==> formData == initialData.value
      ensures initialData.None? ==> formData == old(formData)
      ensures staffList == old(staffList) && deptList == old(deptList)
      ensures disciplineList == old(disciplineList)
      ensures loading == old(loading) && trace == old(trace)
    {
      if initialData.Some? {
        formData := initialData.value;
      }
    }

    /**
     * The mount effect: fetches the three enums in turn; `rpc` is the backend's
     * answer per enum. A list is overwritten only when its answer is a list (an
     * empty list included).
     */
    method FetchEnums(rpc: string -> Option<seq<string>>)
      modifies this
      ensures staffList == ListAfterFetch(old(staffList), rpc("staff_name"))
      ensures deptList == ListAfterFetch(old(deptList), rpc("dept_name"))
      ensures disciplineList == ListAfterFetch(old(disciplineList), rpc("discipline_type"))
      ensures formData == old(formData) && loading == old(loading)
      ensures trace == old(trace) + [Request(Rpc("staff_name")), Request(Rpc("dept_name")),
                                     Request(Rpc("discipline_type"))]
    {
      trace := trace + [Request(Rpc(EnumNames[0])), Request(Rpc(EnumNames[1])), Request(Rpc(EnumNames[2]))];
      staffList := ListAfterFetch(staffList, rpc(EnumNames[0]));
      deptList := ListAfterFetch(deptList, rpc(EnumNames[1]));
      disciplineList := ListAfterFetch(disciplineList, rpc(EnumNames[2]));
    }

    /** A select or text area of the form; there is no input for the log type. */
    method SetText(t: LogText, value: string)
      requires t != LogType
      modifies this
      ensures formData == old(formData).(text := old(formData.text)[t := value])
      ensures t in formData.text && formData.text[t] == value
      ensures forall u :: u != t ==> Get(formData.text, u) == Get(old(formData.text), u)
      ensures staffList == old(staffList) && deptList == old(deptList)
      ensures disciplineList == old(disciplineList)
      ensures loading == old(loading) && trace == old(trace)
    {
      formData := formData.(text := formData.text[t := value]);
    }

    /** A check box: sets exactly its own flag to the box's state. */
    method SetFlag(f: LogFlag, checked: bool)
      modifies this
      ensures formData == old(formData).(flags := old(formData.flags)[f := checked])
      ensures FlagSet(formData, f) == checked
      ensures forall g :: g != f ==> FlagSet(formData, g) == FlagSet(old(formData), g)
      ensures staffList == old(staffList) && deptList == old(deptList)
      ensures disciplineList == old(disciplineList)
      ensures loading == old(loading) && trace == old(trace)
    {
      formData := formData.(flags := formData.flags[f := checked]);
    }

    /** A number input: the counter takes the raw text typed, with no conversion or range check. */
    method SetCounter(c: LogCounter, raw: string)
      modifies this
      ensures formData == old(formData).(counters := old(formData.counters)[c := Typed(raw)])
      ensures c in formData.counters && formData.counters[c] == Typed(raw)
      ensures forall d :: d != c ==> Get(formData.counters, d) == Get(old(formData.counters), d)
      ensures staffList == old(staffList) && deptList == old(deptList)
      ensures disciplineList == old(disciplineList)
      ensures loading == old(loading) && trace == old(trace)
    {
      formData := formData.(counters := formData.counters[c := Typed(raw)]);
    }

    /**
     * Saves the form: an update of the row with the form's id when it has one,
     * an insert otherwise. `error` is the backend's answer. The form keeps its
     * contents on both paths.
     */
    method HandleSubmit(error: Option<string>)
      modifies this
      ensures !loading
      ensures formData == old(formData)
      ensures var call := SaveCall(Table, formData.id, formData);
        trace == old(trace) + [Loading(true), Request(call)]
                 + (if error.None? && hasOnComplete then [CallbackInvoked] else [])
                 + [Loading(false)]
      ensures staffList == old(staffList) && deptList == old(deptList)
      ensures disciplineList == old(disciplineList)
    {
      loading := true;
      var call := SaveCall(Table, formData.id, formData);
      if error.None? && hasOnComplete {
        trace := trace + [Loading(true), Request(call), CallbackInvoked, Loading(false)];
      } else {
        trace := trace + [Loading(true), Request(call), Loading(false)];
      }
      loading := false;
    }
  }
}
