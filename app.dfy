/**
 * The application shell: the session gate, the active tab, and the two edit
 * targets that carry a record from a list to its form and back.
 * The session is an input (the auth provider pushes it); everything the
 * shell renders is a function of its state.
 */
module Navigation {
  import opened Wrappers
  import opened Text
  import ActionItems
  import DailyLogs

  const LogsTab := "logs"
  const ViewLogsTab := "view_logs"
  const ActionsTab := "actions"
  const ViewActionsTab := "view_actions"
  const TrainingTab := "training"

  /** The ids of the sidebar's buttons, the only tabs `handleTabChange` is called with. */
  const NavTabs: set<string> := {LogsTab, ViewLogsTab, ActionsTab, ViewActionsTab, TrainingTab}

  /** The signed-in user's session, as the auth provider hands it over. */
  datatype Session = Session(email: string)

  datatype AppState = AppState(
    session: Option<Session>,
    activeTab: string,
    editActionData: Option<ActionItems.ActionItem>,
    editLogData: Option<DailyLogs.DailyLog>)

  /** The state on first render: signed out, on the daily log form, editing nothing. */
  function Initial(): (s: AppState)
    ensures s.session.None? && s.activeTab == LogsTab
    ensures s.editActionData.None? && s.editLogData.None?
  {
    AppState(None, LogsTab, None, None)
  }

  /** An edit target is held only while its form is the active tab. */
  predicate EditTargetsConsistent(s: AppState)
  {
    && (s.editActionData.Some? ==> s.activeTab == ActionsTab)
    && (s.editLogData.Some? ==> s.activeTab == LogsTab)
  }

  // ---------------------------------------------------------------------------
  // Rendering

  datatype HeaderInfo = HeaderInfo(title: string, desc: string)

  /** The text a template literal gives for an id: the id, or "undefined" when it is missing. */
  function IdText(id: Option<string>): string
  {
    if id.Some? then id.value else "undefined"
  }

  /** `getHeaderInfo`: the title and description above the content. */
  function HeaderInfoOf(s: AppState): (h: HeaderInfo)
    ensures s.activeTab == LogsTab ==>
      && (h.title == "Update Daily Log" <==> s.editLogData.Some?)
      && (h.title == "Daily Operations" <==> s.editLogData.None?)
      && (s.editLogData.Some? ==> h.desc == "Editing Log ID: " + IdText(s.editLogData.value.id))
    ensures s.activeTab == ActionsTab ==>
      && (h.title == "Update Action Record" <==> s.editActionData.Some?)
      && (h.title == "Log Maintenance" <==> s.editActionData.None?)
      && (s.editActionData.Some? ==> h.desc == "Editing Action ID: " + IdText(s.editActionData.value.id))
    ensures s.activeTab == ViewLogsTab ==> h.title == "Operations Board"
    ensures s.activeTab == ViewActionsTab ==> h.title == "Action Registry"
    ensures s.activeTab == TrainingTab ==> h.title == "Skill Matrix"
    ensures h.title == "Dashboard" <==> s.activeTab !in NavTabs
  {
    match s.activeTab
    case "logs" =>
      if s.editLogData.Some? then HeaderInfo("Update Daily Log", "Editing Log ID: " + IdText(s.editLogData.value.id))
      else HeaderInfo("Daily Operations", "Manage and track site activities")
    case "view_logs" => HeaderInfo("Operations Board", "Review historical daily log entries")
    case "actions" =>
      if s.editActionData.Some? then HeaderInfo("Update Action Record", "Editing Action ID: " + IdText(s.editActionData.value.id))
      else HeaderInfo("Log Maintenance", "Create new engineering tasks")
    case "view_actions" => HeaderInfo("Action Registry", "Global maintenance task status")
    case "training" => HeaderInfo("Skill Matrix", "Personnel competency records")
    case _ => HeaderInfo("Dashboard", "Welcome to ENG-PORTAL")
  }

  /**
   * The avatar in the sidebar: the first two characters of the user's email
   * (fewer when it is shorter), upper-cased.
   */
  function AvatarInitials(email: string): (r: string)
    ensures |r| == if |email| < 2 then |email| else 2
    ensures forall i :: 0 <= i < |r| ==> r[i] == UpperChar(email[i])
  {
    Upper(if |email| < 2 then email else email[..2])
  }

  /** Up to case, the avatar shows the start of the email. */
  lemma AvatarIsEmailPrefix(email: string)
    ensures var r := AvatarInitials(email);
      |r| <= |email| && Lower(r) == Lower(email[..|r|])
  {
    var r := AvatarInitials(email);
    assert r == Upper(email[..|r|]);
    LowerUpper(email[..|r|]);
  }

  /** What the main area shows. */
  datatype Content =
    | DailyLogFormScreen(initialLog: Option<DailyLogs.DailyLog>)
    | DailyLogListScreen
    | ActionFormScreen(initialAction: Option<ActionItems.ActionItem>)
    | ActionListScreen
    | TrainingFormScreen
    | NoContent

  datatype Screen = AuthScreen | Shell(avatar: string, header: HeaderInfo, content: Content)

  /** The content for a tab; the forms receive their edit target as initial data. */
  function ContentOf(s: AppState): (c: Content)
    ensures c.DailyLogFormScreen? <==> s.activeTab == LogsTab
    ensures c.ActionFormScreen? <==> s.activeTab == ActionsTab
    ensures c == DailyLogListScreen <==> s.activeTab == ViewLogsTab
    ensures c == ActionListScreen <==> s.activeTab == ViewActionsTab
    ensures c == TrainingFormScreen <==> s.activeTab == TrainingTab
    ensures c.DailyLogFormScreen? ==> c.initialLog == s.editLogData
    ensures c.ActionFormScreen? ==> c.initialAction == s.editActionData
  {
    if s.activeTab == LogsTab then DailyLogFormScreen(s.editLogData)
    else if s.activeTab == ViewLogsTab then DailyLogListScreen
    else if s.activeTab == ActionsTab then ActionFormScreen(s.editActionData)
    else if s.activeTab == ViewActionsTab then ActionListScreen
    else if s.activeTab == TrainingTab then TrainingFormScreen
    else NoContent
  }

  /** The session gate: without a session only the sign-in screen is shown, whatever the tab state. */
  function Render(s: AppState): (v: Screen)
    ensures v == AuthScreen <==> s.session.None?
    ensures v.Shell? ==> v.avatar == AvatarInitials(s.session.value.email)
    ensures v.Shell? ==> v.header == HeaderInfoOf(s) && v.content == ContentOf(s)
  {
    if s.session.None? then AuthScreen
    else Shell(AvatarInitials(s.session.value.email), HeaderInfoOf(s), ContentOf(s))
  }

  // ---------------------------------------------------------------------------
  // Transitions

  datatype Event =
    | SessionChanged(session: Option<Session>)        // getSession / onAuthStateChange
    | TabChange(tab: string)                            // a sidebar button
    | EditAction(action: ActionItems.ActionItem)        // the action list's edit button
    | EditLog(log: DailyLogs.DailyLog)                  // the log list's edit button
    | LogFormComplete                                   // the log form's onComplete
    | ActionFormComplete                                // the action form's onComplete

  /**
   * The state after an event. Only the auth provider changes the session, and
   * it changes nothing else; an edit target is only ever set by its own edit
   * button, and every event other than a session change lands on a tab.
   */
  function Step(s: AppState, e: Event): (r: AppState)
    ensures e.SessionChanged? ==> r == s.(session := e.session)
    ensures !e.SessionChanged? ==> r.session == s.session
    ensures r.editActionData.Some? ==> r.editActionData == s.editActionData || e == EditAction(r.editActionData.value)
    ensures r.editLogData.Some? ==> r.editLogData == s.editLogData || e == EditLog(r.editLogData.value)
    ensures e.TabChange? ==> r.activeTab == e.tab
    ensures !e.SessionChanged? && !e.TabChange? ==> r.activeTab in NavTabs
  {
    match e
    case SessionChanged(session) => s.(session := session)
    case TabChange(t) =>
      s.(activeTab := t,
         editActionData := if t != ActionsTab then None else s.editActionData,
         editLogData := if t != LogsTab then None else s.editLogData)
    case EditAction(r) => s.(editActionData := Some(r), activeTab := ActionsTab)
    case EditLog(r) => s.(editLogData := Some(r), activeTab := LogsTab)
    case LogFormComplete => s.(editLogData := None, activeTab := ViewLogsTab)
    case ActionFormComplete => s.(editActionData := None, activeTab := ViewActionsTab)
  }

  /**
   * Whether the user can cause an event: only what is on screen can be clicked,
   * so the sidebar needs a session, an edit button needs its list on screen and
   * a form's completion needs that form on screen. Session changes come at any time.
   */
  predicate Enabled(s: AppState, e: Event): (b: bool)
    ensures b && !e.SessionChanged? ==> s.session.Some?
    ensures e.SessionChanged? ==> b
    ensures e.TabChange? ==> (b <==> s.session.Some? && e.tab in NavTabs)
    ensures e.EditAction? ==> (b <==> s.session.Some? && s.activeTab == ViewActionsTab)
    ensures e.EditLog? ==> (b <==> s.session.Some? && s.activeTab == ViewLogsTab)
    ensures e.LogFormComplete? ==> (b <==> s.session.Some? && s.activeTab == LogsTab)
    ensures e.ActionFormComplete? ==> (b <==> s.session.Some? && s.activeTab == ActionsTab)
  {
    match e
    case SessionChanged(_) => true
    case TabChange(t) => Render(s).Shell? && t in NavTabs
    case EditAction(_) => Render(s).Shell? && Render(s).content == ActionListScreen
    case EditLog(_) => Render(s).Shell? && Render(s).content == DailyLogListScreen
    case LogFormComplete => Render(s).Shell? && Render(s).content.DailyLogFormScreen?
    case ActionFormComplete => Render(s).Shell? && Render(s).content.ActionFormScreen?
  }

  /** The state after a sequence of events. */
  function Run(s: AppState, events: seq<Event>): AppState
    decreases |events|
  {
    if events == [] then s else Run(Step(s, events[0]), events[1..])
  }

  /** Every event of the sequence is enabled in the state it meets. */
  predicate AllEnabled(s: AppState, events: seq<Event>)
    decreases |events|
  {
    events == [] || (Enabled(s, events[0]) && AllEnabled(Step(s, events[0]), events[1..]))
  }

  /** The shell's invariant: consistent edit targets on one of the sidebar's tabs. */
  predicate Inv(s: AppState)
  {
    EditTargetsConsistent(s) && s.activeTab in NavTabs
  }

  /** A tab change makes the edit targets consistent, from any state. */
  lemma TabChangeClearsStaleTargets(s: AppState, t: string)
    ensures EditTargetsConsistent(Step(s, TabChange(t)))
    ensures Step(s, TabChange(t)).activeTab == t
  {
  }

  /**
   * Editing from a list keeps the targets consistent only because the edit
   * button is reachable from the list tab alone: were it pressed on the log form
   * while a log is being edited, the log target would be left behind.
   */
  lemma EditActionNeedsListTab(r: ActionItems.ActionItem, l: DailyLogs.DailyLog)
    ensures var s := AppState(Some(Session("")), LogsTab, None, Some(l));
      EditTargetsConsistent(s) && !EditTargetsConsistent(Step(s, EditAction(r)))
  {
  }

  /** Every enabled event preserves the invariant. */
  lemma StepPreservesInv(s: AppState, e: Event)
    requires Inv(s) && Enabled(s, e)
    ensures Inv(Step(s, e))
  {
  }

  /** Every enabled run preserves the invariant. */
  lemma {:induction false} RunPreservesInv(s: AppState, events: seq<Event>)
    requires Inv(s) && AllEnabled(s, events)
    ensures Inv(Run(s, events))
    decreases |events|
  {
    if events != [] {
      StepPreservesInv(s, events[0]);
      RunPreservesInv(Step(s, events[0]), events[1..]);
    }
  }

  /**
   * In every state the user can reach from the first render, an edit target is
   * set only while its form is active, and the header is never the fallback.
   */
  lemma ReachableStatesConsistent(events: seq<Event>)
    requires AllEnabled(Initial(), events)
    ensures EditTargetsConsistent(Run(Initial(), events))
    ensures HeaderInfoOf(Run(Initial(), events)).title != "Dashboard"
  {
    RunPreservesInv(Initial(), events);
  }

  // ---------------------------------------------------------------------------
  // The component

  class App {
    var session: Option<Session>
    var activeTab: string
    var editActionData: Option<ActionItems.ActionItem>
    var editLogData: Option<DailyLogs.DailyLog>

    function State(): AppState
      reads this
    {
      AppState(session, activeTab, editActionData, editLogData)
    }

    constructor()
      ensures State() == Initial()
    {
      session := None;
      activeTab := LogsTab;
      editActionData := None;
      editLogData := None;
    }

    /** The auth provider reports the current session (initial lookup or a change). */
    method SetSession(s: Option<Session>)
      modifies this
      ensures session == s
      ensures activeTab == old(activeTab)
      ensures editActionData == old(editActionData) && editLogData == old(editLogData)
      ensures State() == Step(old(State()), SessionChanged(s))
    {
      session := s;
    }

    method HandleEditAction(record: ActionItems.ActionItem)
      modifies this
      ensures editActionData == Some(record) && activeTab == ActionsTab
      ensures editLogData == old(editLogData) && session == old(session)
      ensures State() == Step(old(State()), EditAction(record))
    {
      editActionData := Some(record);
      activeTab := ActionsTab;
    }

    method HandleEditLog(record: DailyLogs.DailyLog)
      modifies this
      ensures editLogData == Some(record) && activeTab == LogsTab
      ensures editActionData == old(editActionData) && session == old(session)
      ensures State() == Step(old(State()), EditLog(record))
    {
      editLogData := Some(record);
      activeTab := LogsTab;
    }

    method HandleTabChange(tabId: string)
      modifies this
      ensures activeTab == tabId
      ensures editActionData == if tabId != ActionsTab then None else old(editActionData)
      ensures editLogData == if tabId != LogsTab then None else old(editLogData)
      ensures session == old(session)
      ensures State() == Step(old(State()), TabChange(tabId))
    {
      if tabId != ActionsTab {
        editActionData := None;
      }
      if tabId != LogsTab {
        editLogData := None;
      }
      activeTab := tabId;
    }

    /** The onComplete handed to the daily log form. */
    method CompleteLogForm()
      modifies this
      ensures editLogData.None? && activeTab == ViewLogsTab
      ensures editActionData == old(editActionData) && session == old(session)
      ensures State() == Step(old(State()), LogFormComplete)
    {
      editLogData := None;
      activeTab := ViewLogsTab;
    }

    /** The onComplete handed to the action form. */
    method CompleteActionForm()
      modifies this
      ensures editActionData.None? && activeTab == ViewActionsTab
      ensures editLogData == old(editLogData) && session == old(session)
      ensures State() == Step(old(State()), ActionFormComplete)
    {
      editActionData := None;
      activeTab := ViewActionsTab;
    }
  }
}
