# Vault Spend: ordering, import, review, savings-target and lock behaviour

Vault Spend is a desktop budgeting application: React views over a local backend. Most of a view is
layout; this project models the parts that hold state or arithmetic and proves what they promise over
every input, every run and every order in which answers arrive. A call to the backend is a step that may
succeed, fail, or be answered late.

| file | what it models |
|---|---|
| `Sequences`, `Sorting` | lists restricted to a group, splices, swaps, stable sorting by a comparison, label order |
| `CustomOrder`, `BudgetOrder`, `BudgetBoard` | the saved order of budget categories, drags, Move up / Move down |
| `OrderRace` | the late read of that order against the reorders made meanwhile |
| `NavOrder` | the order of the sidebar tabs |
| `DashboardRows` | Dashboard rows, the index each card's buttons act on, moves and drops |
| `LayoutRace` | the saved Dashboard layout, edits, lists arriving one by one, pruning of dead widgets |
| `HoldingRows`, `HoldingImport` | rows and ticks of a holdings import, and its protocol with the backend |
| `ReviewInbox` | the import inbox: single rows, the bulk review, failures and retries |
| `ReviewRetries` | retries between which the person picks other categories |
| `ReviewOutcome` | what a review leaves in the backend and on screen, row by row |
| `CentsText`, `Ratios`, `Calendar` | money as text, exact fractions, months and days |
| `CutTerms`, `CutGate`, `CutPreview`, `Spread`, `CutPreviewLaws` | the savings-target preview: its checks, the confirm button, the calculator, the spreading of cents |
| `Suggestions` | budget suggestions, late answers, applying them |
| `AutoLock` | the auto-lock warning and its teardown |
| `Cases` | single inputs at which the limits show, and a savings target that can be confirmed |

Code that updates state in place is a class or a method with the same loops and branches, and its
contract ties the new state to a function of the old one; the theorems are about those functions and
about runs of them.

Some results show a limit of the code and give the exact condition; `Cases` holds an input for each:

- A reorder that takes hold of nothing in a section of another month can still change what that section
  shows, because it gives positions to all of its own month (`BudgetOrder.OtherMonthStaysExactlyWhen`,
  `Cases.OtherMonthTurnsAround`).
- The saved category order is read without looking at what the person did meanwhile. A reorder made before
  the answer arrives is saved over the stored positions, and one made after the read was served is thrown
  off the screen: a keyboard move always when something was saved earlier, a drag unless the order on screen
  held the whole month with the dragged category just above its target already
  (`OrderRace.ArrivalKeepsEverythingExactlyWhen`, `OrderRace.DragDuringReadStaysExactlyWhen`,
  `OrderRace.MoveDuringReadIsLost`, `OrderRace.PositionsStoredExactlyWhen`, `Cases.EarlyReorderWipesStored`,
  `Cases.LateReorderIsThrownOff`).
- Loading the sidebar order drops unknown ids and appends missing ones, as documented, but keeps repeated
  ones; the loaded order holds each tab once exactly when the stored one repeats no known tab
  (`NavOrder.LoadedIsComplete`, `Cases.RepeatedTabStays`). The same holds of the Dashboard layout
  (`LayoutRace.LoadedWithoutRepeats`), where a drop makes one card of all copies of the dragged one
  (`DashboardRows.DropKeepsTheRest`).
- An edit of the Dashboard made before the saved layout is read edits the default layout and is saved over
  the stored one: the stored pinned widgets are lost (`LayoutRace.StoredWidgetSurvivesExactlyWhen`,
  `Cases.EarlyEditWipesStored`).
- A row of the import inbox whose category call got through in a failed bulk review, and for which the person
  then picks the listed category again, is kept as listed by the retry: it is shown as kept and stays stored
  under the other category (`ReviewRetries.LeftBehindExactlyWhen`, `Cases.KeptRowStaysChanged`).
- A late success of "Stay unlocked" also takes down the countdown of a newer warning for the same profile
  and generation (`AutoLock.LateStayClearsExactlyWhen`, `Cases.NewerCountdownGoes`), and a countdown stays on
  screen when the known generation changes (`Cases.OldCountdownStays`).
- On the Dashboard the Move buttons act on the stored layout, where a disabled Safe to spend card keeps its
  place. A press moves its card one place on screen exactly when there is a next place that way in the
  layout and the hidden card is neither there nor between the start of the card's row and the card (`DashboardRows.MoveButtonWorksExactlyWhen`,
  `DashboardRows.MoveButtonByName`). Otherwise a press swaps the card with the hidden one, which moves
  nothing on screen (`Cases.MoveDownStuckBeforeHidden`, `Cases.MoveDownStuckAfterHidden`, and in the default
  layout `Cases.DefaultLayoutIsStuck`), or, with an index short by one, Move down moves the card up
  (`Cases.MoveDownMovesUp`) and Move up moves two others or nothing (`DashboardRows.MovesTheOtherWay`).
- An emptied Dashboard layout is saved but comes back as the default one (`LayoutRace.LoadAfterSave`,
  `Cases.EmptyLayoutComesBack`).
- A holdings source stays behind when its late cancel fails (`HoldingImport.FailedCancelLeaks`).

## Model

| member | source | states |
|---|---|---|
| `Sequences.SwapNeighbourInside` | src/BudgetView.tsx:684-699 | swapping two possibly distant positions of the flat list swaps exactly the two neighbours of the group's own list |
| `Sequences.SwapNeighbourOutside` | src/BudgetView.tsx:684-699 | and leaves every restriction that holds neither of the two as it was |
| `Sequences.MoveBeforeInside` | src/BudgetView.tsx:662-670 | taking an item out of the flat list and splicing it in before a target is the same drop on every group list that holds both |
| `CustomOrder.RankMapIsLast` | src/BudgetView.tsx:104 | a stored order with duplicates ranks an item by its last position |
| `CustomOrder.SortIsTheOnlySort` | src/BudgetView.tsx:103-109 | any rearrangement in which every pair satisfies the comparator (rank, unpositioned last, original index on ties) is the sorted list: no sorting algorithm can give another |
| `CustomOrder.SortIsArranged` | src/BudgetView.tsx:103-109 | the result is the positioned items in stored order (last occurrence counting) followed by the others in their original order, duplicates included |
| `CustomOrder.SortIsPermutation` | src/BudgetView.tsx:103-109 | nothing is lost, added or repeated |
| `CustomOrder.SortCommutesWithOnly` | src/BudgetView.tsx:103-109 | sorting everything known and then keeping a month's categories equals sorting that month directly |
| `BudgetOrder.EffectiveForm` | src/BudgetView.tsx:662-665 | what a reorder edits holds every saved position once, in order, followed by the month's unpositioned categories |
| `BudgetOrder.DisplayIsEffective` | src/BudgetView.tsx:652-655 | every part of the month's display is a projection of the list a reorder edits |
| `BudgetOrder.SectionsHoldTheLines` | src/BudgetView.tsx:651-655 | a section shows exactly the categories whose line this month is in its group, the last line of a repeated category deciding |
| `BudgetOrder.MoveSwapsNeighbours` | src/BudgetView.tsx:684-699 | for every stored order and month, a move swaps exactly the category and its neighbour in the section of the group its line is in, and does nothing at the edge |
| `BudgetOrder.MoveLeavesOtherGroups` | src/BudgetView.tsx:684-699 | every other group's displayed list is unchanged by a move |
| `BudgetOrder.MoveAndBack` | src/BudgetView.tsx:684-699 | as functions, for any category of the month: a move and its opposite restore every displayed list if and only if the first has a neighbour or neither does |
| `BudgetOrder.OfferedMoveIsUndone` | src/BudgetView.tsx:684-699 | whatever the row menu offers (src/BudgetView.tsx:889-890) can be undone: the category stands one place along, where the opposite entry is offered, and that one shows every section as before |
| `BudgetOrder.DropInSection` | src/BudgetView.tsx:662-675 | a drop inside a group's section puts the category just above the target there |
| `BudgetOrder.DropLeavesOtherGroups` | src/BudgetView.tsx:662-675 | sections the dragged category is not in do not see the drop |
| `BudgetOrder.DragIsMoves` | src/BudgetView.tsx:662-699 | a drop inside a section shows, in every section, what a computed number of presses of one button shows |
| `BudgetOrder.NoPositionLost` | src/BudgetView.tsx:657-699 | after any run of drags and moves, in whatever months, the stored order holds exactly what it held before and the months and categories of the reorders that took effect, without repeats once one did |
| `BudgetOrder.ReorderKeepsPositions` | src/BudgetView.tsx:657-699 | by the guard: a reorder that takes effect stores exactly the old positions, the month's categories and its own, each once; another changes nothing |
| `BudgetOrder.RunKeepsDisplayedOrder` | src/BudgetView.tsx:657-699 | positioned categories no step took hold of keep their relative order in every month's display |
| `BudgetOrder.DropOnAnyRow` | src/BudgetView.tsx:662-675 | dropped on any row, also of another section, a category stands in its own section after exactly those of its companions that stood above that row |
| `BudgetOrder.DisplayStaysExactlyWhen` | src/BudgetView.tsx:652-655 | any part of a month, such as a section, shows the same under a longer stored order if and only if it began with its share of that order |
| `BudgetOrder.OtherMonthStaysExactlyWhen` | src/BudgetView.tsx:657-699 | a reorder that handles nothing in a part of another month, such as a section, leaves what it shows alone if and only if its unpositioned categories shared with the reordered month come first there, in that month's order |
| `OrderRace.EveryArrivalIsATimeline` | src/BudgetView.tsx:634-641 | every run in which the answer arrives is reorders, the read served, reorders, the answer, reorders |
| `OrderRace.TimelineForm` | src/BudgetView.tsx:634-641 | what is shown and stored at the end: reorders before the arrival build on an empty order, those after it on the answer |
| `OrderRace.ArrivalKeepsEverythingExactlyWhen` | src/BudgetView.tsx:634-641 | the arrival leaves what the person did on screen if and only if no reorder since the read was served took effect or, as seen before the last that did, the order on its way is the edited one with the dragged category in its new place, or with the two neighbours exchanged; every saved position is then stored if and only if the reorders saved before the read, if any, cover them |
| `OrderRace.StaysPutExactlyWhen` | src/BudgetView.tsx:657-699 | a reorder that takes effect leaves the order as it is if and only if it is a drag, the order held the whole month, and the dragged category stood just above its target |
| `OrderRace.DragDuringReadStaysExactlyWhen` | src/BudgetView.tsx:634-641 | a drag between the read and its answer stays on screen if and only if, with something saved earlier, it changes nothing in that sense or, with nothing saved, the stored order is the month's own list with the dragged category just above its target |
| `OrderRace.PositionsStoredExactlyWhen` | src/BudgetView.tsx:634-641 | the exact condition under which a run that contains the arrival ends with every saved position stored |
| `OrderRace.PositionsStoredBeforeArrival` | src/BudgetView.tsx:634-641 | and the one for every run, or prefix of one, in which the answer has not arrived |
| `OrderRace.MoveDuringReadIsLost` | src/BudgetView.tsx:634-641 | a keyboard move that takes effect between the read and its answer stays on screen if and only if nothing was saved before and the stored order is the month's own list with the two neighbours exchanged |
| `BudgetBoard.CategoryBoard.OrderRead` | src/BudgetView.tsx:634-641 | the arrival replaces the order on screen, whatever was done before it |
| `BudgetBoard.CategoryBoard.ReorderCategory` | src/BudgetView.tsx:662-670 | the state and the saved order after a drag, as a function of the old order, and as a step of the race |
| `BudgetBoard.CategoryBoard.HandleDrop` | src/BudgetView.tsx:672-675 | a drop reorders only while something is dragged, and ends the drag |
| `BudgetBoard.CategoryBoard.MoveCategoryWithinGroup` | src/BudgetView.tsx:684-699 | the in-place swap of two positions gives the specified order and saves it |
| `NavOrder.LoadedIsComplete` | src/appStorage.ts:74-90 | the loaded order holds every tab, each once if and only if the stored list repeats no known tab |
| `NavOrder.RunKeepsComplete` | src/App.tsx:1332-1374 | along every run of drops and keyboard moves the order holds every tab and nothing else, repeated or not, so every lookup succeeds, and each once when it did at first |
| `NavOrder.EveryLookupSucceeds` | src/appStorage.ts:74-90 | so it is from whatever was stored |
| `NavOrder.LoadedOrderExactly` | src/appStorage.ts:74-90 | loading keeps the known stored tabs in front in their order and puts those not stored behind, in the order of the program |
| `NavOrder.LoadAfterSave` | src/appStorage.ts:74-90 | a complete saved order is loaded back as it was |
| `NavOrder.SectionsHoldTheirTabs` | src/App.tsx:1332-1360 | a section lists exactly the tabs of its own group |
| `NavOrder.DefaultSections` | src/appTypes.ts:98-109 | the four sections of a sidebar that was never reordered |
| `NavOrder.MoveInGroup` | src/App.tsx:1357-1374 | a keyboard move swaps the tab with its neighbour in its own group |
| `NavOrder.MoveOutsideGroup` | src/App.tsx:1357-1374 | and changes no other group |
| `NavOrder.DropInGroup` | src/App.tsx:1334-1350 | a drop lands just above the target within a group and is invisible to groups without the dragged tab |
| `NavOrder.DropOnAnyTab` | src/App.tsx:1334-1350 | dropped on any tab, also of another group, a tab stands in its own group after exactly those of its companions that stood above the target in the flat order |
| `NavOrder.DropLands` | src/App.tsx:1334-1350 | a drop on the dragged tab itself changes nothing; any other puts it just before its target and keeps the order of the others |
| `NavOrder.Sidebar.HandleNavDrop` | src/App.tsx:1334-1350 | the drop's new order and the end of the drag |
| `NavOrder.Sidebar.MoveNavItem` | src/App.tsx:1357-1374 | the in-place swap gives the specified order |
| `DashboardRows.LayoutRows` | src/DashboardView.tsx:1183-1197 | the loop that pushes into the last row or starts a new one computes the specified rows |
| `DashboardRows.RowsHoldTheLayout` | src/DashboardView.tsx:1183-1197 | the rows read in order are the layout without a disabled Safe to spend card |
| `DashboardRows.RowsAreMaximalRuns` | src/DashboardView.tsx:1174-1197 | compact cards stand together in runs that cannot be extended and every other widget stands alone |
| `DashboardRows.OnlyOneCut` | src/DashboardView.tsx:1174-1197 | there is only one way to cut a list into such runs |
| `DashboardRows.GivenIndex` | src/DashboardView.tsx:1345-1372 | the index given to the buttons is the card's own position, the one whose place on screen is the card's, less the cards hidden between the start of its row and it; repeats allowed |
| `DashboardRows.GivenIndexOnce` | src/DashboardView.tsx:1345-1372 | without repeats it is short by exactly one if and only if a hidden Safe to spend card lies between its row's start and the card, and exact otherwise |
| `DashboardRows.MovesAsShown` | src/DashboardView.tsx:1147-1153 | given its own position a card swaps on screen with its neighbour the way the arrow points; nothing moves there if that place in the layout is the hidden card's or does not exist |
| `DashboardRows.MoveKeepsWidgets` | src/DashboardView.tsx:1147-1153 | no press loses, adds or repeats a widget |
| `DashboardRows.MovesTheOtherWay` | src/DashboardView.tsx:1147-1153 | given a position short by one, Move down moves the card up on screen, or nothing if the hidden card is just above it in the layout; Move up swaps the two cards above it, or nothing if the hidden card is in one of the two places above it |
| `DashboardRows.MoveButtonWorksExactlyWhen` | src/DashboardView.tsx:1345-1372 | either button moves a shown card one place on screen the way it points if and only if nothing is hidden between its row's start and it, there is a next place that way, and the widget there is not hidden; repeats allowed |
| `DashboardRows.MoveButtonByName` | src/DashboardView.tsx:1345-1372 | the same without repeats, by the positions of the card and of Safe to spend in the layout |
| `DashboardRows.DropKeepsTheRest` | src/DashboardView.tsx:1162-1171 | a drop puts the card just before its target and keeps the order of all the others; copies of the dragged card collapse into the one dropped |
| `DashboardRows.DropLands` | src/DashboardView.tsx:1162-1171 | a drop on the dragged card itself changes nothing, any other lands just before its target |
| `DashboardRows.RemoveTakesOffScreen` | src/DashboardView.tsx:1155-1157 | removing a widget takes exactly it, with its copies, off the screen, the other cards staying in their order row by row |
| `DashboardRows.LayoutEditor.MoveWidget` | src/DashboardView.tsx:1147-1153 | the swap on a copy, or nothing beyond an end |
| `DashboardRows.LayoutEditor.RemoveWidget` | src/DashboardView.tsx:1155-1157 | the layout without the widget |
| `DashboardRows.LayoutEditor.HandleWidgetDrop` | src/DashboardView.tsx:1162-1171 | the drop's new layout and the end of the drag |
| `LayoutRace.LoadAfterSave` | src/dashboardLayout.ts:176-205 | a saved layout is loaded back unchanged if and only if it is not empty, holds only known widgets and is not the untouched old default; what is loaded is always non-empty and known |
| `LayoutRace.LoadedWithoutRepeats` | src/dashboardLayout.ts:176-197 | a loaded layout holds no widget twice if and only if no two places of the stored list stand for a common known widget, the old stats card for its four |
| `LayoutRace.LoadIgnoresAndExpands` | src/dashboardLayout.ts:176-197 | wherever it stands, an unknown stored id is as good as not there and the old stats card as good as its four |
| `LayoutRace.ValidExactly` | src/dashboardLayout.ts:91-97 | known are the catalogue, `account:` and `bucket:` with digits, and `investment:` with a name of one line |
| `LayoutRace.PointsExactly` | src/dashboardLayout.ts:48-59 | an id points at the account or bucket its digits spell, or the investment account it names, by its prefix |
| `LayoutRace.CompactExactly` | src/DashboardView.tsx:107-109 | the cards that share rows are the four stat cards and the widgets that point at something |
| `LayoutRace.App.PruneEffect` | src/App.tsx:1501-1514 | the filtering loop, its guard on the three loaded flags, and the save only when something was dropped |
| `LayoutRace.App.OnSavedLayout` | src/App.tsx:456-467 | the read is taken only while mounted and unedited |
| `LayoutRace.App.SetLayoutWidgets` | src/App.tsx:1314-1318 | an edit is marked, shown and saved |
| `LayoutRace.PruneDropsExactlyTheDead` | src/App.tsx:1501-1514 | pruning keeps the order, drops exactly the widgets whose target is gone, and changes nothing if and only if there is none |
| `LayoutRace.PrunedByItsList` | src/App.tsx:1501-1514 | once the lists are read, an account, bucket or investment widget stays exactly when its target is in the list of its own kind, and every other widget stays |
| `LayoutRace.PruneSettles` | src/App.tsx:1501-1514 | one pruning is a fixed point |
| `LayoutRace.UntouchedUntilRead` | src/App.tsx:309-312 | without an edit, no order of loads and prunings touches or saves the default layout, so the saved one is accepted when it arrives |
| `LayoutRace.LateReadChangesNothing` | src/App.tsx:456-467 | once edited, every run equals the same run without its late reads |
| `LayoutRace.EditSurvives` | src/App.tsx:1314-1318 | an edit's layout stays shown and saved through everything but further edits and prunings |
| `LayoutRace.LiveWidgetSurvives` | src/App.tsx:1400-1409 | a pinned widget whose target is in every list that arrives is never pruned, in whatever order the lists arrive |
| `LayoutRace.StoredWidgetSurvivesExactlyWhen` | src/App.tsx:456-467 | a stored widget that is not on the default layout, with its target in every arriving list and left alone by the edits, is on screen in the end if and only if the saved layout was read before the first edit; what was saved is what is on screen |
| `LayoutRace.NoPruneBeforeLoad` | src/App.tsx:1490-1502 | nothing is pruned while one of the three lists has not arrived |
| `HoldingRows.MapRows` | core/src/holding_import.rs:221-260 | the counting loop and the marking loop give every row its mark |
| `HoldingRows.MarkedRowsAreWellMarked` | core/src/holding_import.rs:221-260 | a row is marked repeated if and only if it describes a holding and another row, sound or not, has its symbol, and already existing if and only if it describes a holding the account has (src-tauri/src/commands/holding_import.rs:129-131); number, symbol and error are those parsed |
| `HoldingRows.TickedAtFirst` | src/HoldingImportDialog.tsx:99 | ticked at first is exactly every row that describes a holding the account does not have and whose symbol no other row has |
| `HoldingRows.DisabledExactly` | src/HoldingImportDialog.tsx:170-173 | a box is disabled exactly when its row is no new holding or another ticked row has its symbol |
| `HoldingRows.AcceptsExactly` | src-tauri/src/holding_import.rs:18-38 | the backend accepts exactly the choices of one to 5000 rows that are all new to the account |
| `HoldingRows.InitialIsGood` | src/HoldingImportDialog.tsx:99 | the initial ticks have distinct symbols, no error and no existing match |
| `HoldingRows.EnabledExactlyWhenGood` | src/HoldingImportDialog.tsx:170-173 | a row's tick box is enabled if and only if toggling it keeps the ticks that way |
| `HoldingRows.SelectedCanBeUnticked` | src/HoldingImportDialog.tsx:170-173 | a ticked row can always be unticked |
| `HoldingRows.GoodIsAccepted` | src-tauri/src/holding_import.rs:18-38 | the backend accepts every non-empty set of ticks of that kind |
| `HoldingImport.Dialog.PressLoad` | src/HoldingImportDialog.tsx:82-91 | the load action up to its first call: the flag, the guards and which call is made |
| `HoldingImport.Dialog.PressReview` | src/HoldingImportDialog.tsx:93-101 | the review action up to its call |
| `HoldingImport.Dialog.PressSave` | src/HoldingImportDialog.tsx:103-111 | the save action up to its call |
| `HoldingImport.Dialog.Resume` | src/HoldingImportDialog.tsx:75-111 | what runs after each awaited answer, mounted or not |
| `HoldingImport.Dialog.Unmount` | src/HoldingImportDialog.tsx:68-72 | the clean-up cancels the source that is held, if any |
| `HoldingImport.NextKeeps` | src/HoldingImportDialog.tsx:68-111 | every step of dialog and backend keeps exclusion, ownership, the currency of the review and the saved rows |
| `HoldingImport.OneActionAtATime` | src/HoldingImportDialog.tsx:75-80 | in every run at most one action is under way |
| `HoldingImport.NothingLeaks` | src/HoldingImportDialog.tsx:68-91 | once unmounted with all calls settled, every live source is one whose cancel failed; none is live when cancels succeed |
| `HoldingImport.UnmountCancels` | src/HoldingImportDialog.tsx:68-72 | closing the dialog cancels the source it holds, once, and a failed cancel leaves exactly that source |
| `HoldingImport.ReviewShowsWhatWasReviewed` | src/HoldingImportDialog.tsx:93-101 | whenever the review step is shown, its preview and ticks were computed for the source, account and columns held |
| `HoldingImport.SavedWhatWasShown` | src-tauri/src/commands/holding_import.rs:144-164 | everything saved was what the person saw, with distinct symbols, and no source is saved twice |
| `HoldingImport.SavedWereNew` | src-tauri/src/commands/holding_import.rs:125-164 | in every run each save is of one to 5000 rows of one review, none of a symbol the account held when it was made, no two of one symbol |
| `HoldingImport.PressStartsExactly` | src/HoldingImportDialog.tsx:75-111 | when a press starts an action, and which call it makes |
| `HoldingImport.FailureChangesNothing` | src/HoldingImportDialog.tsx:75-80 | a call that fails ends its action and leaves dialog and backend as they were |
| `HoldingImport.ReloadReplacesSource` | src/HoldingImportDialog.tsx:82-91 | loading again cancels the source held and leaves only the new one live |
| `HoldingImport.LeavingTheReview` | src/HoldingImportDialog.tsx:93-111 | back from the review, or with another account, nothing can be saved until it has been made again |
| `HoldingImport.MappingExactly` | src/HoldingImportDialog.tsx:93-101 | the columns are a mapping exactly when the four required fields have one and no column is in use twice |
| `HoldingImport.TickExactly` | src/HoldingImportDialog.tsx:170-173 | what each tick, Select all and Clear do to the ticks on screen |
| `HoldingImport.ImportSavesTheTicks` | src/HoldingImportDialog.tsx:82-111 | whatever columns are chosen and boxes ticked, an import without failures saves exactly the rows then ticked |
| `HoldingImport.ImportCompletes` | src/HoldingImportDialog.tsx:82-111 | an undisturbed import saves exactly the rows ticked at first and leaves no source |
| `HoldingImport.FailedCancelLeaks` | src/HoldingImportDialog.tsx:88 | the condition on cancels is needed |
| `ReviewInbox.Backend.Make` | src/App.tsx:1923-1930 | one backend call: it lands, or fails before or after landing |
| `ReviewInbox.Dialog.FinishRow` | src/ImportInboxDialog.tsx:85-92 | a finished row is resolved and unticked and the cursor moves by the handler's own snapshot |
| `ReviewInbox.Dialog.Review` | src/ImportInboxDialog.tsx:72-78 | the bulk loop of two-call rows, stopping at the first failure |
| `ReviewInbox.PerformCommutes` | src/App.tsx:1923-1930 | repeating a category or dismiss call changes nothing, and calls that do not conflict commute |
| `ReviewInbox.StaleIsHarmless` | src/ImportInboxDialog.tsx:85-92 | a stale snapshot of the resolved rows finishes a row like a fresh one when rows are taken in list order |
| `ReviewInbox.FinishMovesCursor` | src/ImportInboxDialog.tsx:85-92 | the cursor lands on the first later pending row, and stays where it was only when there is none |
| `ReviewInbox.AttemptLeavesTheRest` | src/ImportInboxDialog.tsx:47-109 | a failed attempt keeps the finished rows resolved and the others ticked and pending, and finishing those comes to one whole pass |
| `ReviewInbox.RetriesComeToOneRun` | src/ImportInboxDialog.tsx:47-109 | any failures and retries that finally succeed leave dialog and backend exactly as one failure-free run |
| `ReviewOutcome.ReviewTakesUpExactly` | src/ImportInboxDialog.tsx:42-45 | a bulk review takes up exactly the ticked pending rows, and does nothing without one or when one that needs a category has no choice |
| `ReviewOutcome.ReviewedExactly` | src/ImportInboxDialog.tsx:67-109 | after one that succeeds, exactly the large and duplicate flags of the reviewed rows are dismissed, each has its chosen category or what it had where it was kept as listed, nothing else changes, and each is shown as what was done with it |
| `ReviewOutcome.RowDoneExactly` | src/ImportInboxDialog.tsx:85-116 | the same for Accept, Keep, Delete and Skip on one row |
| `ReviewOutcome.EditExactly` | src/ImportInboxDialog.tsx:54-61 | what each tick, choice and cursor key changes |
| `ReviewOutcome.InitialChoicesExactly` | src/ImportInboxDialog.tsx:37-39 | each row opens with its suggestion, else its category, else nothing |
| `ReviewOutcome.ReviewEverything` | src/ImportInboxDialog.tsx:72-78 | tick all, pick one category and review: every pending row gets it, unless listed with it, and loses its flags |
| `ReviewInbox.BulkCursor` | src/ImportInboxDialog.tsx:72-92 | however far a bulk review gets, the cursor ends on the first pending row after the last finished one |
| `ReviewRetries.ChangedChoicesComeToOneRun` | src/ImportInboxDialog.tsx:47-109 | with other categories picked between failed presses, the dialog ends as after one failure-free press with each row's choice when it was finished, and so does the backend if and only if no row kept as listed was left with another category by a call that got through |
| `ReviewRetries.RetriesForm` | src/ImportInboxDialog.tsx:47-109 | in general the backend is as after the calls that got through for unfinished rows followed by one clean pass with the settled choices |
| `ReviewRetries.LeftBehindExactlyWhen` | src/ImportInboxDialog.tsx:72-109 | with an inbox listed from the backend, it does if and only if no row finally kept as listed had a category call get through in a failed press |
| `ReviewInbox.SessionKeeps` | src/ImportInboxDialog.tsx:42-45 | in every session of an opened inbox ticks stay among pending rows, and from any moment on resolved rows only grow |
| `CentsText.RoundTrip` | src/CutPreviewDialog.tsx:47 | reading the printed "d.dd" text gives the same number of cents, for every number |
| `CentsText.TwoDecimalsPrintBack` | src/CutPreviewDialog.tsx:47 | a plain amount typed with two decimals is printed back as typed |
| `CentsText.HundredthsExactWhen` | src/CutPreviewDialog.tsx:169-170 | the split-and-pad parser gives 100 times the decimal if and only if at most two digits follow the point (or the amount is zero) |
| `CentsText.AcceptedExactly` | src/askVault/spendingScenarioContract.ts:97-103 | a text is accepted if and only if it has the plain shape and its amount fits the 96-bit coefficient; the length limit refuses nothing more |
| `CentsText.PlainShapeExactly` | src/askVault/spendingScenarioContract.ts:97-103 | the plain shape is a whole number without a needless zero, alone or with a point and one or two digits |
| `CentsText.TrimExactly` | src/CutPreviewDialog.tsx:51-53 | trimming takes a run of spaces off each end and nothing else |
| `CentsText.MessageExactly` | src/CutPreviewDialog.tsx:51-58 | exactly when the field complains, and of what |
| `CentsText.PrintedIsAccepted` | src/askVault/spendingScenarioContract.ts:97-103 | every printed amount has the accepted shape |
| `CentsText.PercentExactly` | src/CutPreviewDialog.tsx:51-58 | the percentage check lets through exactly the amounts up to 100 |
| `CentsText.RoundedIsNearest` | src/askVault/spendingScenarioMath.ts:59-66 | displayed cents are the nearest to the exact amount, the larger of two equally near |
| `CentsText.WholeCentsShownExactly` | src/askVault/spendingScenarioMath.ts:59-66 | an amount of whole cents is shown, and read back, unchanged |
| `Ratios.MakeFraction` | src/askVault/cutPreviewMath.ts:10-14 | the Euclidean loop computes the reduced fraction |
| `Ratios.FractionReduced` | src/askVault/cutPreviewMath.ts:10-14 | every computed amount is in lowest terms |
| `Ratios.SameValueSameRatio` | src/askVault/spendingScenarioContract.ts:71-72 | two amounts in lowest terms are the same pair of numbers if and only if they are equal |
| `Ratios.FromDecimalValue` | src/askVault/cutPreviewMath.ts:15 | a decimal text becomes exactly the number it stands for |
| `Calendar.MonthsTouching` | src/askVault/calendar.ts:14-25 | the month loop yields the specified segments |
| `Calendar.SegmentShape` | src/askVault/calendar.ts:14-25 | a segment is a run of real days in one month, and the whole month if and only if the range covers that month |
| `Calendar.EveryDayOnce` | src/askVault/calendar.ts:14-25 | every day of the range is in exactly one segment and no other day is in any |
| `Calendar.MonthLength` | src/askVault/calendar.ts:8 | the months have the lengths that the day numbers of the Gregorian calendar give them, leap years included |
| `Calendar.DayNumbersOrder` | src/askVault/calendar.ts:12 | day numbers order dates as dates are ordered |
| `Calendar.SegmentDaysCounted` | src/askVault/calendar.ts:12-25 | the days of a segment and of its month are as many as the dates covered and the dates there are |
| `CutTerms.ValidateIntent` | src/askVault/cutPreviewContract.ts:138-173 | the row loop accepts an intent if and only if it has 1 to 20 distinct known categories, sound amounts and sound dates |
| `CutTerms.DatesExactly` | src/askVault/cutPreviewContract.ts:138-173 | sound dates, told by the days covered: at most twelve months, the whole as-of year or nothing before the as-of date, and only whole months where part months are excluded |
| `CutTerms.TermExactly` | src/askVault/cutPreviewContract.ts:157-170 | a sound row has a name, two amounts that may be typed, and no percentage above 100 |
| `CutTerms.TrustedExactly` | src/askVault/spendingScenarioMath.ts:101-134 | a usual month is trusted exactly with a sound source and a typed amount or the three months before its date, agreed to where only one or two are complete |
| `CutTerms.MonthTotalExactly` | src/askVault/spendingScenarioMath.ts:101-134 | a month total is digits, or digits, a point and digits, within the coefficient |
| `CutTerms.UsualMonthIsTheMean` | src/askVault/spendingScenarioMath.ts:151-158 | the usual month is the exact mean of the complete months, and missing if and only if there are none |
| `CutTerms.UsualMonthByMonth` | src/askVault/spendingScenarioMath.ts:151-158 | the same on the three months themselves: the totals of those that are complete, over their number |
| `CutGate.Gate` | src/CutPreviewDialog.tsx:153-176 | the loop that fills choices and problems, and the state of the confirm button |
| `CutGate.FloorsAgree` | src/CutPreviewDialog.tsx:168-172 | the dialog's cross-multiplied comparison, the calculator's and the comparison of exact amounts are one and the same |
| `CutGate.EnabledMeans` | src/CutPreviewDialog.tsx:155-176 | an enabled button means a bijection between usual months and categories, all from one source, each floor at most its usual month as an exact amount |
| `CutGate.ChoicesAreAnswered` | src/CutPreviewDialog.tsx:155-175 | every choice is taken for a row that was read as the person answered for it: the amount typed, the month read, or a short history agreed to; its usual month is that amount or the mean of the complete months |
| `CutGate.RowsSettledExactly` | src/CutPreviewDialog.tsx:155-175 | row by row, exactly when there is a choice and which problem is shown otherwise, or beside it |
| `CutGate.EnabledExactlyWhenCalculable` | src/CutPreviewDialog.tsx:176 | the button is enabled if and only if no row has a problem and the calculator turns exactly these choices into a preview |
| `CutGate.EnabledAtOnce` | src/CutPreviewDialog.tsx:163-176 | with a full or own usual month for every category and every floor within it, the button is enabled without any answer and the months are taken as read |
| `CutPreview.CheckedCopy` | src/askVault/cutPreviewMath.ts:32-54 | the calculator's own checks accept exactly one sound baseline per category, all from the confirmed source |
| `CutGate.AcceptsExactly` | src/askVault/cutPreviewMath.ts:32-54 | the checks accept exactly a sound source and intent with one sound baseline, from that source, for each category and no other |
| `CutPreview.MonthFactor` | src/askVault/cutPreviewMath.ts:69-73 | the month factor is positive, at most the months touched, and exactly their number when only whole months count |
| `CutPreview.FactorIsPartCovered` | src/askVault/cutPreviewMath.ts:69-73 | each factor times the dates of its month is the number of them the range covers |
| `Spread.HandOut` | src/askVault/cutPreviewMath.ts:90 | the loop that hands out leftover cents, updating the shares in place |
| `Spread.PenniesReachRemainders` | src/askVault/cutPreviewMath.ts:87-90 | there are never more leftover cents than shares with a remainder, so each goes to one that has one |
| `Spread.SpreadIsComplete` | src/askVault/cutPreviewMath.ts:86-90 | the cuts add up to exactly the target, or to the whole capacity when that is less |
| `Spread.SpreadIsFair` | src/askVault/cutPreviewMath.ts:86-90 | no category is cut beyond its capacity, and each is within one cent of its exact proportional share, equal when that is whole |
| `Spread.LargerRemainderFirst` | src/askVault/cutPreviewMath.ts:89-90 | a leftover cent never passes over a larger remainder, or an earlier label with the same one |
| `Spread.LargerCapacityCutsMore` | src/askVault/cutPreviewMath.ts:86-90 | a category that can give more is never asked for less |
| `Spread.OutOfReachTakesAll` | src/askVault/cutPreviewMath.ts:86-90 | a target out of reach takes every category to its capacity |
| `CutPreviewLaws.AllocationKeepsTerms` | src/askVault/cutPreviewMath.ts:91-98 | one category's limit and cut add up to its usual month, respect floor and limit, and its months add up to its total |
| `CutPreviewLaws.AllocationFigures` | src/askVault/cutPreviewMath.ts:75-98 | a category's capacity is the smaller of its limit and its headroom, in whole cents a month or over all months; its allocated cents are exactly its cut over that, and each month saves the cut times its factor |
| `CutPreviewLaws.PreviewFigures` | src/askVault/cutPreviewMath.ts:71-98 | in every preview: the most a category can be cut, its capacity in whole cents and its cut, from its usual month and what was typed; a total's unit is the months covered, which is the month factor shown |
| `CutPreviewLaws.MonthSaving` | src/askVault/cutPreviewMath.ts:91-98 | in every preview each month saves the cut times the part of its dates that is covered |
| `CutPreviewLaws.ColumnsAddUp` | src/askVault/cutPreviewMath.ts:83-101 | the shown capacities and allocations add up to the shown totals, and the allocations are the spread of the target over the capacities |
| `CutPreviewLaws.TargetAsTyped` | src/askVault/cutPreviewMath.ts:84-85 | the target of a preview is the typed amount to the cent |
| `CutPreviewLaws.PreviewKeepsTerms` | src/askVault/cutPreviewMath.ts:56-106 | in every preview every selected category keeps its typed floor and its typed limit in dollars or percent |
| `CutPreviewLaws.PreviewConserves` | src/askVault/cutPreviewMath.ts:86-106 | the exact total saving is what was allocated, times the month factor for a monthly target; met if and only if nothing is short |
| `CutPreviewLaws.OrderNeverMatters` | src/askVault/cutPreviewMath.ts:56-106 | rearranging categories and baselines never changes the outcome, be it a refusal, a gap or the figures |
| `CutPreviewLaws.OutcomeExactly` | src/askVault/cutPreviewMath.ts:56-106 | which categories are named as missing, as out of reach, or shown, and that each list is in label order |
| `CutPreviewLaws.FigureFound` | src/askVault/cutPreviewMath.ts:59-63 | a category's usual month is that of its own row |
| `Sorting.LabelLessExactly` | src/askVault/cutPreviewMath.ts:23 | label order: the first different character decides, and a prefix comes first |
| `CutPreviewLaws.CalculateCutPreview` | src/askVault/cutPreviewMath.ts:56-106 | the calculator, with its loops, gives the specified outcome |
| `Suggestions.BudgetView.Ask` | src/BudgetView.tsx:616-618 | asking makes every earlier request out of date |
| `Suggestions.BudgetView.Receive` | src/BudgetView.tsx:618-619 | an answer is shown only if it is not empty and its request is still the latest |
| `Suggestions.BudgetView.ChangeTo` | src/BudgetView.tsx:612-615 | a month change takes suggestions down and outdates every request |
| `Suggestions.HandleApply` | src/App.tsx:2078-2089 | the loop writes rows in order to one period up to the first failure |
| `Suggestions.RunKeepsMonths` | src/BudgetView.tsx:610-620 | in every run from the opening of the view suggestions on screen belong to the viewed month, and each application writes its rows, none skipped or repeated, to the month they were computed for |
| `Suggestions.LatestAnswerShown` | src/BudgetView.tsx:616-620 | the answer to the latest request is shown if the month has not changed since, however many older answers came first |
| `Suggestions.SuggestionStep` | src/BudgetView.tsx:610-620 | exactly what puts suggestions up and takes them down |
| `Suggestions.OlderAnswersIgnored` | src/BudgetView.tsx:612-619 | after a new request or another month the answers to earlier requests change nothing on screen |
| `Suggestions.ShownWasLatest` | src/BudgetView.tsx:610-620 | in every run what is on screen was the answer to the request that was then the latest, and nothing since has taken it down |
| `Suggestions.ApplyWritesItsRows` | src/App.tsx:2078-2089 | applying takes the suggestions down and writes exactly the rows left in the dialog, in order, to the month on screen |
| `Suggestions.FailedWriteStops` | src/App.tsx:2078-2089 | a write that fails stops its application for good |
| `AutoLock.Session.OnWarning` | src/AutoLockSession.tsx:44-49 | a warning counts only for the generation known when it comes |
| `AutoLock.Session.OnCancellation` | src/AutoLockSession.tsx:50-55 | a cancellation clears only the same profile and generation |
| `AutoLock.Session.StayUnlocked` | src/AutoLockSession.tsx:91-97 | a press starts one call for what is shown, and none while one is open |
| `AutoLock.Session.OnStayed` | src/AutoLockSession.tsx:96-105 | a late success clears only the countdown it was pressed for |
| `AutoLock.Session.Dispose` | src/AutoLockSession.tsx:69-75 | teardown releases what is registered and the reporter |
| `AutoLock.CountdownStep` | src/AutoLockSession.tsx:44-105 | the only ways a countdown appears or goes |
| `AutoLock.WarningShownExactly` | src/AutoLockSession.tsx:44-49 | after any run a warning is shown exactly when its listener was registered, nothing was torn down and it carries the generation last read |
| `AutoLock.CancellationExactly` | src/AutoLockSession.tsx:50-55 | the same of what a cancellation takes down |
| `AutoLock.HearsExactlyWhen` | src/AutoLockSession.tsx:44-75 | a listener hears from its registration until teardown |
| `AutoLock.GenerationExactly` | src/AutoLockSession.tsx:35-43 | the generation known is the one last read before teardown |
| `AutoLock.ReporterExactly` | src/AutoLockSession.tsx:60-75 | the activity reporter is installed exactly between the first read and teardown |
| `AutoLock.ShownWasWarned` | src/AutoLockSession.tsx:44-105 | in every run a countdown on screen was put up by a warning of the generation known then, and nothing since has taken it down |
| `AutoLock.LateStayClearsExactlyWhen` | src/AutoLockSession.tsx:91-105 | whatever happens between a press and its answer, the answer takes down the countdown then on screen if and only if it is a success and that countdown has the pressed profile and generation, newer or not |
| `AutoLock.SecondsRunDown` | src/AutoLockSession.tsx:78-87 | the seconds only go down, one at a time, and reach zero exactly when that many whole seconds have passed |
| `AutoLock.TickShowsWhatIsLeft` | src/AutoLockSession.tsx:78-87 | while a countdown is shown, a tick shows its seconds less the whole seconds since it came |
| `AutoLock.TeardownReleasesAll` | src/AutoLockSession.tsx:60-75 | after teardown, once registrations have finished in any order, every listener and the activity reporter is released |
| `Cases.OtherMonthTurnsAround` | src/BudgetView.tsx:657-699 | Move up on fuel in one month turns gifts and rent around in a section of another |
| `Cases.EarlyReorderWipesStored` | src/BudgetView.tsx:634-641 | a reorder saved before the read is served wipes out a stored position |
| `Cases.LateReorderIsThrownOff` | src/BudgetView.tsx:634-641 | one made while the answer is on its way is thrown off the screen as well |
| `Cases.RepeatedTabStays` | src/appStorage.ts:74-90 | a stored order with one tab twice is loaded with that tab twice |
| `Cases.MoveDownStuckBeforeHidden` | src/DashboardView.tsx:1345-1372 | a card just above the hidden one, given its own position, does not move down on screen |
| `Cases.MoveDownStuckAfterHidden` | src/DashboardView.tsx:1345-1372 | nor does one just after it in the same row |
| `Cases.MoveDownMovesUp` | src/DashboardView.tsx:1345-1372 | the card after that one moves up on screen |
| `Cases.DefaultLayoutIsStuck` | src/DashboardView.tsx:1147-1153 | in the default layout To do cannot be moved down while Safe to spend is off |
| `Cases.EmptyLayoutComesBack` | src/dashboardLayout.ts:176-197 | an emptied layout comes back as the default one |
| `Cases.EarlyEditWipesStored` | src/App.tsx:1314-1318 | removing To do before the saved layout is read loses a stored account card, on screen and in what is saved |
| `Cases.OnlyTheSoundRowIsMarked` | core/src/holding_import.rs:221-260 | of two rows with one symbol, one with a problem, only the sound one is marked repeated |
| `Cases.KeptRowStaysChanged` | src/ImportInboxDialog.tsx:72-109 | a row listed as Food, set to Fuel in a failed press and back to Food, is shown as kept and stays stored under Fuel |
| `Cases.NewerCountdownGoes` | src/AutoLockSession.tsx:91-105 | a late success takes down the countdown of a newer warning for the same session |
| `Cases.OldCountdownStays` | src/AutoLockSession.tsx:44-87 | a countdown stays, and runs on, when another generation becomes known |
| `Cases.ReviewCanBeConfirmed` | src/CutPreviewDialog.tsx:153-176 | a review whose button is enabled and which the calculator turns into a preview |

## Left out

- Rendering, styling, focus, popovers, drag events and measurements: a drag is its start and its drop.
- React scheduling: a state change and its effects are one step, except where a handler's stale snapshot or a late answer is the point.
- Clocks, file pickers, storage, notifications and the network: parameters or steps that may fail.
- JavaScript texts are UTF-16 code units; here they are characters, and label order compares characters.
- Dates are year, month and day, ordered as such; that their `YYYY-MM-DD` texts sort the same way is not modelled, nor is the parsing of those texts.
- Shape checks of untyped values (missing or unknown fields) are replaced by the types; the texts of refusals are not modelled, only which check refuses.
- Whole numbers are unbounded, as the source's BigInt; counters are limited to safe integers only where the source checks it.
- Ratios.Subtract: defined only when the first amount is not the smaller, as in both of the calculator's calls.
- LayoutRace.ParseWidgetId: an id whose number is not plain digits names no account or bucket; JavaScript's other number spellings are not modelled.
- HoldingImport: the text, path and format fields, folder browsing contents, and drops of files; loading a file is one call with an arbitrary outcome, and the backend's clearing of other sources is an arbitrary expiry.
- HoldingRows.MapRows: parsing and validation of a row's cells is an arbitrary outcome per row.
- ReviewInbox: clicks on single rows during a bulk run (the controls are disabled then), and what the backend learns from a corrected category.
- ReviewRetries.ChangedChoicesComeToOneRun: between presses the person picks categories; ticking other rows, or finishing rows one by one, in between is not part of it.
- OrderRace: a save reaches the disk before the next event; the order in which overlapping saves arrive there is not modelled.
- LayoutRace.ValidExactly: the catalogue of widgets and the default layouts are tables of the model, as they are of the program.
- CutGate: the choices stage, where dates are completed and categories picked, beyond the intent it hands over.
- Suggestions: how the backend computes suggestions; what the person edits in the dialog is an arbitrary list of rows.
- AutoLock: how the backend counts idle time; which events reach the activity reporter.
- Other views, parsers, retirement and debt projections, forecasts, duplicate detection, theme, help and totals: easy or separate.
