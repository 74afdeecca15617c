# ENG-PORTAL in Dafny

ENG-PORTAL is a web portal for an industrial maintenance team. Staff use it to log
daily operations, raise and track maintenance action items, and record training.
It is a single-page React application over a hosted database, authentication
service, RPC endpoint and file store. This project models its client-side core:

- **The shell** (`app.dfy`, module `Navigation`). It covers:
  - the session gate;
  - the active tab and the two edit targets that carry a record from a list to its form and back;
  - the header text and the avatar initials;
  - an induction over every sequence of user events. It proves that an edit target is only ever held while its form is on screen.
- **The three list views** (`action_list_view.dfy`, `daily_log_list_view.dfy`,
  `training_list_view.dfy`). Each one keeps the full list of rows, and its shown list is the search filter applied to them. Each also has:
  - the expanded-row slot;
  - the fetch and confirmed-delete handlers;
  - the badge and row classifiers.

  Shared pieces live in `listing.dfy` (order-preserving filter, toggle, rows after a fetch) and `text.dfy` (ASCII case mapping, `includes`, `split('.')`).
- **The three forms** (`action_tracker_form.dfy`, `daily_log_form.dfy`,
  `training_form.dfy`). Each one has:
  - its default record;
  - the option lists it loads from the enum RPC;
  - the field setters;
  - the submit, which chooses between an update and an insert, then clears or keeps the form.

  The action form also has the attachment upload, including how its storage path is built from the file name.

Components whose state changes in place are classes. Each has the component's state variables as fields and its handlers as methods. The pure computations (filter predicates, classifiers, header text, the shell's transition function) are functions. The lemmas about them are the proofs.

The backend is never called. Each handler appends the requests it issues, as
`Backend.Call` values, to a ghost `trace`. The trace also records the moments the
busy flags change and when the parent's callback is invoked. Whatever the backend answers
(rows, an error, an RPC result, a public URL) is an argument of the handler.
`records.dfy` holds the three row types. Each row keeps its columns in a map, and a missing key stands for a
column that is null or undefined.

### Where the code and its design description disagree

The model follows the code in each of these cases.

- The design description calls the empty search the identity. In the code a row
  whose searched fields are all null is hidden even then. The searched fields are
  `field?.toLowerCase()` chains, and undefined is falsy. See
  `ActionListing.EmptyTermKeeps` and `ActionListing.EmptySearchKeepsRows`.
- The design description says every form clears itself after a successful create.
  - The action form clears only when no `onComplete` is passed, and `App` always passes one.
  - The daily log form never clears.
  - The training form clears only the topic, the overview and the completion box.
- The design description mentions CSV export and a statistics strip. Neither exists in
  the list views' code.
- The training list view is not rendered by `App`, so nothing supplies its `onEdit`.

## Model

| member | source | states |
|---|---|---|
| Text.Lower | src/ActionListView.jsx:18 | `toLowerCase` keeps the length and maps each character to its lower-case form (ASCII) |
| Text.LowerIdempotent | src/ActionListView.jsx:18 | lower-casing an already lower-cased term changes nothing |
| Text.Upper | src/App.jsx:112 | `toUpperCase` keeps the length and maps each character to its upper-case form (ASCII) |
| Text.LowerUpper | src/App.jsx:112 | upper-casing changes only case: lower-casing the result equals lower-casing the input |
| Text.Includes | src/ActionListView.jsx:18 | `includes` is true exactly when the needle occurs at some position of the text |
| Text.IncludesEmpty | src/ActionListView.jsx:18-22 | the empty term is included in every text |
| Text.FieldMatches | src/ActionListView.jsx:18 | `field?.toLowerCase().includes(term.toLowerCase())`: a missing field never matches; a present one matches when its lower-cased text includes the lower-cased term |
| Text.FieldMatchesGet | src/ActionListView.jsx:18-22 | a missing field never matches; a present field matches iff its lower-cased text includes the lower-cased term |
| Text.EmptyTermMatchesPresent | src/ActionListView.jsx:18-22 | with an empty term a field matches iff it is present |
| Text.LiteralOccurrenceMatches | src/ActionListView.jsx:18 | a field that literally contains the term matches it, whatever the case |
| Text.TermCaseIrrelevant | src/ActionListView.jsx:18 | the case of the search term makes no difference |
| Text.SearchNarrowing | src/ActionListView.jsx:18-22 | a field matching a term also matches every part of that term |
| Text.SplitOnDot | src/ActionTrackerForm.jsx:75 | `split('.')` gives at least one part, no part holds a '.', and joining the parts with '.' gives the text back |
| Text.SplitCount | src/ActionTrackerForm.jsx:75 | `split('.')` gives one more part than the text has dots |
| Text.LastDotSegment | src/ActionTrackerForm.jsx:75 | `split('.').pop()` is the longest dot-free suffix of the name: preceded by a '.' when shorter, the whole name iff it has no '.' |
| Backend.OrEmpty | src/ActionListView.jsx:36 | `data \|\| []`: the data when present, no rows when null |
| Backend.IdPresent | src/ActionTrackerForm.jsx:104 | the truthiness of `formData.id`: present and not the empty string |
| Backend.SaveCall | src/ActionTrackerForm.jsx:104-108 | a save is an update keyed on the id iff the id is truthy, otherwise an insert of the one record; never both |
| Listing.Filter | src/ActionListView.jsx:17-23 | the filtered rows all come from the input and pass the test, and there are no more of them |
| Listing.FilterCounts | src/ActionListView.jsx:17-23 | each passing row is kept as often as it occurs; every other row is dropped |
| Listing.FilterIsSubsequence | src/ActionListView.jsx:17-23 | the filter keeps the original order |
| Listing.FilterKeepsAll | src/ActionListView.jsx:17-23 | when every row passes, the filter returns the rows unchanged |
| Listing.Toggle | src/ActionListView.jsx:50-52 | the slot is emptied iff it held this id; otherwise it now holds this id |
| Listing.ToggleTwice | src/ActionListView.jsx:50-52 | clicking the same row twice restores the slot when it was empty or held that row; a different row that was expanded stays collapsed |
| Listing.AtMostOneExpanded | src/ActionListView.jsx:106-129 | among rows with distinct ids at most one is expanded |
| Listing.ExpandedRowClass | src/ActionListView.jsx:106 | the row is highlighted iff it is the expanded one |
| Listing.RowsAfterFetch | src/ActionListView.jsx:34-38 | a successful fetch replaces the rows (null read as none); a failed one keeps them |
| ActionListing.ActionMatches | src/ActionListView.jsx:17-23 | the filter callback: one of responsibility, main equipment, plant area, issue or contractor matches the term |
| ActionListing.ActionMatchesIff | src/ActionListView.jsx:17-23 | an action is kept iff one of responsibility, main equipment, plant area, issue or contractor is present and includes the term case-insensitively |
| ActionListing.EmptyTermKeeps | src/ActionListView.jsx:17-23 | with an empty term an action is kept iff some searched field is present |
| ActionListing.FilterActions | src/ActionListView.jsx:16-25 | the shown actions are exactly the matching ones, each as often as in the full list, in their original order |
| ActionListing.EmptySearchKeepsRows | src/ActionListView.jsx:16-25 | the empty search shows every action that has a searched field |
| ActionListing.NarrowingSearch | src/ActionListView.jsx:16-25 | typing more into the search box never brings back a hidden action |
| ActionListing.PriorityClass | src/ActionListView.jsx:54 | prio-high iff High or Urgent, prio-medium iff Medium, prio-low otherwise (a missing value included) |
| ActionListing.StatusClass | src/ActionListView.jsx:56-61 | status-complete iff Closed or Complete, status-progress iff In Progress, status-hold iff On Hold, status-open otherwise |
| ActionListing.ActionListView.constructor | src/ActionListView.jsx:6-10 | starts loading, with no rows, an empty search and nothing expanded |
| ActionListing.ActionListView.SetSearchTerm | src/ActionListView.jsx:16-25 | a new term re-filters the full list and changes nothing else |
| ActionListing.ActionListView.FetchActions | src/ActionListView.jsx:27-40 | selects all actions newest first by date raised; replaces the rows on success, keeps both lists on error, ends not loading, keeps the shown list the filter of the rows |
| ActionListing.ActionListView.HandleDelete | src/ActionListView.jsx:42-48 | nothing happens unless confirmed; a failed delete changes no rows; a successful one is followed by a fetch |
| ActionListing.ActionListView.ToggleRow | src/ActionListView.jsx:50-52 | the expanded slot is toggled and nothing else changes |
| DailyLogListing.LogMatches | src/DailyLogListView.jsx:17-22 | the filter callback: one of logged by, department, discipline or details matches the term |
| DailyLogListing.LogMatchesIff | src/DailyLogListView.jsx:16-24 | a log is kept iff one of logged by, department, discipline or details is present and includes the term case-insensitively |
| DailyLogListing.EmptyTermKeeps | src/DailyLogListView.jsx:17-22 | with an empty term a log is kept iff some searched field is present |
| DailyLogListing.FilterLogs | src/DailyLogListView.jsx:16-24 | the shown logs are exactly the matching ones, with their multiplicities, in their original order |
| DailyLogListing.EmptySearchKeepsRows | src/DailyLogListView.jsx:16-24 | the empty search shows every log that has a searched field |
| DailyLogListing.RowClass | src/DailyLogListView.jsx:92 | the row is red iff the log reports a safety incident |
| DailyLogListing.SafetyBadge | src/DailyLogListView.jsx:110 | INCIDENT (danger) iff a safety incident is reported, CLEAR (success) otherwise |
| DailyLogListing.TasksBadge | src/DailyLogListView.jsx:113 | COMPLETE iff all the day's work is completed, PENDING otherwise |
| DailyLogListing.AlertRowShowsIncident | src/DailyLogListView.jsx:92-110 | a red row and an INCIDENT badge always go together |
| DailyLogListing.DailyLogListView.constructor | src/DailyLogListView.jsx:6-10 | starts loading, with no logs, an empty search and nothing expanded |
| DailyLogListing.DailyLogListView.SetSearchTerm | src/DailyLogListView.jsx:16-24 | a new term re-filters the full list and changes nothing else |
| DailyLogListing.DailyLogListView.FetchLogs | src/DailyLogListView.jsx:26-39 | selects all logs newest first by creation time; replaces the rows on success, keeps them on error, ends not loading |
| DailyLogListing.DailyLogListView.HandleDelete | src/DailyLogListView.jsx:41-47 | nothing happens unless confirmed; a successful delete is followed by a fetch |
| DailyLogListing.DailyLogListView.ToggleRow | src/DailyLogListView.jsx:49-51 | the expanded slot is toggled and nothing else changes |
| TrainingListing.RecordMatches | src/TrainingListView.jsx:17-21 | the filter callback: one of trainee, topic or trainer matches the term |
| TrainingListing.RecordMatchesIff | src/TrainingListView.jsx:16-23 | a record is kept iff one of trainee, topic or trainer is present and includes the term case-insensitively |
| TrainingListing.EmptyTermKeeps | src/TrainingListView.jsx:17-21 | with an empty term a record is kept iff some searched field is present |
| TrainingListing.FilterRecords | src/TrainingListView.jsx:16-23 | the shown records are exactly the matching ones, with their multiplicities, in their original order |
| TrainingListing.EmptySearchKeepsRows | src/TrainingListView.jsx:16-23 | the empty search shows every record that has a searched field |
| TrainingListing.CompletionBadge | src/TrainingListView.jsx:100-101 | COMPLETED (status-complete) iff the training is completed, PENDING (status-open) otherwise |
| TrainingListing.ShortId | src/TrainingListView.jsx:140 | the shown id is a prefix of the id, at most 8 characters, and the whole id when shorter |
| TrainingListing.TrainingListView.constructor | src/TrainingListView.jsx:6-10 | starts loading, with no records, an empty search and nothing expanded |
| TrainingListing.TrainingListView.SetSearchTerm | src/TrainingListView.jsx:16-23 | a new term re-filters the full list and changes nothing else |
| TrainingListing.TrainingListView.FetchTrainingData | src/TrainingListView.jsx:25-38 | selects all records newest first by creation time; replaces the rows on success, keeps them on error, ends not loading |
| TrainingListing.TrainingListView.HandleDelete | src/TrainingListView.jsx:40-46 | nothing happens unless confirmed; a successful delete is followed by a fetch |
| TrainingListing.TrainingListView.ToggleRow | src/TrainingListView.jsx:48-50 | the expanded slot is toggled and nothing else changes |
| Navigation.Initial | src/App.jsx:12-17 | no session, the daily log tab, no edit targets |
| Navigation.HeaderInfoOf | src/App.jsx:64-73 | the title per tab: Update Daily Log iff editing a log on the logs tab, Update Action Record iff editing an action on the actions tab, Dashboard iff the tab is not a sidebar tab; an edit shows the record's id |
| Navigation.AvatarInitials | src/App.jsx:112 | the first two characters of the email (fewer if it is shorter), upper-cased |
| Navigation.AvatarIsEmailPrefix | src/App.jsx:112 | up to case, the avatar is the start of the email |
| Navigation.ContentOf | src/App.jsx:141-165 | each sidebar tab shows its own screen, and a form receives its edit target as initial data |
| Navigation.Render | src/App.jsx:75-167 | the sign-in screen is shown iff there is no session, whatever the tab state; otherwise the shell with the avatar, the header and the tab's content |
| Navigation.Step | src/App.jsx:43-57 | the handlers' transitions: only a session change touches the session, and touches nothing else; an edit target is only ever set by its own edit button; a tab change lands on the tab it names, every other click on a sidebar tab |
| Navigation.Enabled | src/App.jsx:76-165 | what the screen offers: nothing but session changes without a session; a sidebar tab at any time; the action edit button only on the action registry, the log edit button only on the log board, each form's completion only on that form |
| Navigation.TabChangeClearsStaleTargets | src/App.jsx:53-57 | a tab change leaves no edit target that does not belong to the new tab |
| Navigation.EditActionNeedsListTab | src/App.jsx:43-46 | from the log form while a log is being edited, an action edit would leave the log target behind |
| Navigation.StepPreservesInv | src/App.jsx:43-57 | every event the screen allows keeps the edit targets consistent and the tab a sidebar tab |
| Navigation.RunPreservesInv | src/App.jsx:43-161 | every allowed sequence of events keeps that invariant |
| Navigation.ReachableStatesConsistent | src/App.jsx:12-161 | in every state reachable from the first render, an edit target is held only while its form is active, and the header is never the Dashboard fallback |
| Navigation.App.constructor | src/App.jsx:12-17 | the component starts in the initial state |
| Navigation.App.SetSession | src/App.jsx:20-32 | the session becomes the provider's; nothing else changes |
| Navigation.App.HandleEditAction | src/App.jsx:43-46 | the action becomes the edit target and the actions tab opens; the log target stays |
| Navigation.App.HandleEditLog | src/App.jsx:48-51 | the log becomes the edit target and the logs tab opens; the action target stays |
| Navigation.App.HandleTabChange | src/App.jsx:53-57 | the tab changes; each edit target is cleared unless the new tab is its form; the session stays |
| Navigation.App.CompleteLogForm | src/App.jsx:146 | the log target is cleared and the log board opens |
| Navigation.App.CompleteActionForm | src/App.jsx:157 | the action target is cleared and the action registry opens |
| ActionForms.DefaultAction | src/ActionTrackerForm.jsx:13-38 | no id and no contractor key; raised today; status Open; every other field blank |
| ActionForms.DefaultActionInserts | src/ActionTrackerForm.jsx:104-108 | a fresh form is in create mode: its submit inserts |
| ActionForms.RpcRequests | src/ActionTrackerForm.jsx:47-57 | one enum request per name, in order |
| ActionForms.EnumsFrom | src/ActionTrackerForm.jsx:47-63 | each option list is its enum's answer, or empty when the answer is null |
| ActionForms.NullAnswersGiveNoOptions | src/ActionTrackerForm.jsx:59-63 | null answers for every enum leave every list empty |
| ActionForms.UploadPath | src/ActionTrackerForm.jsx:75-77 | `actions/` + `Math.random()` + '.' + `name.split('.').pop()`; its shape is stated by UploadPathShape |
| ActionForms.UploadPathShape | src/ActionTrackerForm.jsx:75-77 | the path is `actions/`, the random text and a '.', then the text after the last '.' of the file name, or the whole name when it has none |
| ActionForms.UploadPathWithoutDot | src/ActionTrackerForm.jsx:75-77 | a name without a '.' is used whole as the extension |
| ActionForms.ActionTrackerForm.constructor | src/ActionTrackerForm.jsx:6-38 | the default record, no options, not busy |
| ActionForms.ActionTrackerForm.ReceiveInitialData | src/ActionTrackerForm.jsx:40-44 | a record handed in replaces the form wholesale; none leaves it |
| ActionForms.ActionTrackerForm.FetchAllEnums | src/ActionTrackerForm.jsx:46-66 | requests the ten enums in order and sets the option lists from their answers |
| ActionForms.ActionTrackerForm.SetField | src/ActionTrackerForm.jsx:156-323 | an input sets exactly its own field |
| ActionForms.ActionTrackerForm.HandleFileUpload | src/ActionTrackerForm.jsx:69-97 | no file: the form is unchanged; an upload error: the form is unchanged; success: only the attachment URL changes, to the file's public URL; not uploading on every exit |
| ActionForms.ActionTrackerForm.HandleSubmit | src/ActionTrackerForm.jsx:99-129 | one update or insert; on error the form is unchanged; on success the callback runs and the form is kept, or the form resets to the defaults when there is no callback; loading is on during the call and off afterwards |
| DailyLogForms.DefaultLog | src/DailyLogForm.jsx:11-41 | log type Daily Engineering Log, every flag false, every counter 0, every other text blank |
| DailyLogForms.DefaultLogHasNoIncident | src/DailyLogForm.jsx:16 | a fresh log reports no safety incident |
| DailyLogForms.ListAfterFetch | src/DailyLogForm.jsx:52-54 | a list is replaced iff its enum answered with a list |
| DailyLogForms.DailyLogForm.constructor | src/DailyLogForm.jsx:5-41 | the default record, empty lists, not loading |
| DailyLogForms.DailyLogForm.ReceiveInitialData | src/DailyLogForm.jsx:43-45 | a record handed in replaces the form wholesale; none leaves it |
| DailyLogForms.DailyLogForm.FetchEnums | src/DailyLogForm.jsx:47-57 | requests three enums and overwrites each list only when its answer is a list |
| DailyLogForms.DailyLogForm.SetText | src/DailyLogForm.jsx:97-211 | a select or text area sets exactly its own field |
| DailyLogForms.DailyLogForm.SetFlag | src/DailyLogForm.jsx:135 | a check box sets exactly its own flag to the box's state |
| DailyLogForms.DailyLogForm.SetCounter | src/DailyLogForm.jsx:142-167 | a number input stores the raw text typed in exactly its own counter |
| DailyLogForms.DailyLogForm.HandleSubmit | src/DailyLogForm.jsx:59-73 | one update or insert; the form is never reset; the callback runs only on success; loading is off afterwards |
| TrainingForms.DefaultTraining | src/TrainingForm.jsx:8-17 | every text blank, not completed, no id |
| TrainingForms.AfterSave | src/TrainingForm.jsx:43 | `{ ...formData, training_topic: '', training_overview: '', is_completed: false }`; what it keeps is stated by AfterSaveKeeps |
| TrainingForms.AfterSaveKeeps | src/TrainingForm.jsx:43 | a save blanks the topic and the overview, clears the box, and keeps the trainee, trainer, aspect, method and test type |
| TrainingForms.AfterSaveIdempotent | src/TrainingForm.jsx:43 | a second save's reset changes nothing more |
| TrainingForms.DefaultTrainingSurvivesSave | src/TrainingForm.jsx:8-43 | the reset leaves an empty form as it is |
| TrainingForms.TrainingForm.constructor | src/TrainingForm.jsx:5-17 | the default record, empty lists, not loading |
| TrainingForms.TrainingForm.LoadLists | src/TrainingForm.jsx:19-34 | requests four enums; each list is its answer, or empty when null |
| TrainingForms.TrainingForm.SetText | src/TrainingForm.jsx:75-173 | an input sets exactly its own field |
| TrainingForms.TrainingForm.SetCompleted | src/TrainingForm.jsx:158-159 | the check box sets the completion flag |
| TrainingForms.TrainingForm.HandleSubmit | src/TrainingForm.jsx:36-46 | always an insert of the form; on error the form is unchanged, on success the partial reset; loading is off afterwards |

## Left out

- Sign-in and sign-up (`src/Auth.jsx`) and sign-out (`src/App.jsx:60-62`) are calls to the hosted auth service. Their only effect on the shell is a new session, which `Navigation.App.SetSession` takes as input.
- The auth subscription and its teardown (`src/App.jsx:20-32`) are a push callback. The session it delivers is an argument.
- Backend requests are recorded, not performed. Their answers are arguments, and `alert` and `console.error` messages are not modelled.
- Handlers run atomically. Interleavings of overlapping requests are not modelled. Examples: a stale fetch answer overwriting a newer one, or edits made while an upload is in flight being lost because the upload handler spreads the `formData` of its own render.
- `Math.random()` and `new Date().toISOString().split('T')[0]` are inputs: `random` and `today`.
- The chosen file is reduced to its name.
- Button `disabled` states, `required` attributes and all other markup and CSS beyond the classifiers listed above are not modelled. The disabled buttons only guard against overlapping calls, which are already out of scope.
- The action form's Cancel button (`src/ActionTrackerForm.jsx:332`) calls the parent's `onComplete`. Its effect is `Navigation.App.CompleteActionForm`.
- The training list view's edit button calls an `onEdit` that no parent in this application supplies.
- Text.Lower: maps ASCII letters only. Unicode case mapping of `toLowerCase` is not modelled.
- Text.Upper: maps ASCII letters only. Unicode case mapping of `toUpperCase` is not modelled.
- ActionListing.ActionListView.FetchActions: states the list after the filter effect has re-run. The single render in which the shown list holds the unfiltered rows is not modelled. The same holds for `DailyLogListing.DailyLogListView.FetchLogs` and `TrainingListing.TrainingListView.FetchTrainingData`.
- TrainingListing.ShortId: takes the id as text, since ids are the backend's UUID strings. `toString` on other id types is not modelled.
- ActionForms.ActionTrackerForm.SetField: excludes the date raised, which has no input.
- DailyLogForms.DailyLogForm.SetText: excludes the log type, which has no input.
- Numeric counters loaded from the database are `Number` values. Values typed into a number input stay raw text (`Typed`), with no conversion.
- A null `is_completed` on a training row reads as false.
- CSV export and aggregate statistics are not modelled: there is no code for them in the list views.
