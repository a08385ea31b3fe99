# Stage arrangement, preview navigation and post status — a Dafny model

This project models the logic of a small React administration UI for
supply-chain traceability. The UI holds three pieces of state logic, and each
becomes a pure function over immutable data:

- **Stage configuration.** This is the arrangement state of the
  configuration screen. It is an ordered list of stages. Each stage has an
  integer id, a name, a detail text and the catalog services dropped into it.
  A flag, `isDraggingService`, separates a service drag from a stage reorder.
  The modules are `StageConfig`, `Reorder` and `StageConfigProps`, with `JsText`
  for the JavaScript string handling the reducer relies on.
- **Preview navigation.** The preview screen keeps a step counter
  `currentStep` over a fixed list of seven demonstration stages. The timeline
  markers and the previous/next buttons move it. The modules are
  `StagePreview`, `StagesData`, `TimelineNavigation` and `NavigationControls`.
- **Posts fetch status.** This is a Redux slice. Three reducer cases (pending,
  fulfilled, rejected) act on `{posts, isLoading, error, isSuccess}`. The
  module is `PostSlice`.

A React handler becomes a function from the state before the event to the
state after it. `Date.now()` becomes the parameter `now`. The drag library's
callback argument becomes the records `DragStart` and `DropResult`.
`onDragEnd` reads `isDraggingService` as it was before the call. This matches
the handler's closure: its own reset of the flag does not affect the checks
later in the same call. The result always has the flag lowered.

Droppable ids stay strings. A drop onto a stage is recognised the way the
code does it: `startsWith("stage-")`, then `parseInt(id.split("-")[1])`. So
`parseInt` is modelled as ECMAScript defines it when no radix is given. It
skips leading white space and accepts one sign. A `0x` prefix switches it to
base 16. It reads the longest run of digits, and `NaN` becomes `None`. One
consequence is proved. The zone `stage-${id}` targets `id` for every id ≥ 0.
A stage with a negative id gets the zone `stage--3`, which parses to `NaN`,
so no service can be dropped into that stage. Every reachable stage has a
positive id, so this case never arises.

Three behaviours one might expect are absent from the code, and so from the
model:

- The code has no duplicate-service rejection. The sidebar text says a
  service may be added more than once.
- The code has no `save` and no `addStageAfter`.
- `removeService` removes every entry carrying the given unique id, not
  exactly one.

## Model

| member | source | states |
|---|---|---|
| `JsText.StartsWith` | src/screens/stageConfig/StageConfig.jsx:71 | `startsWith`: the prefix fits and the text begins with it (no contract; `StageConfig.StageDroppableId` and `StageConfigProps.CatalogIdsAreShort` state what the tests at lines 66 and 71 accept) |
| `Seqs.Filter` | src/screens/stageConfig/StageConfig.jsx:140 | `filter` keeps exactly the elements that pass, never grows the list and adds nothing to the multiset; `Seqs.FilterAppend` gives the order and `Seqs.FilterCount` the multiplicity |
| `Seqs.FilterAppend` | src/screens/stageConfig/StageConfig.jsx:140 | filtering distributes over concatenation, so survivors keep their relative order |
| `Seqs.FilterCount` | src/screens/stageConfig/StageConfig.jsx:114 | a value that passes occurs in the result exactly as often as in the input |
| `Seqs.MapSeq` | src/screens/stageConfig/StageConfig.jsx:149 | `map` keeps the length and applies the function at every position |
| `JsText.SecondField` | src/screens/stageConfig/StageConfig.jsx:72 | `split("-")[1]` is undefined exactly when there is no dash; otherwise it is the dash-free text after the first dash, ending at the next dash or at the end |
| `JsText.TrimStart` | src/screens/stageConfig/StageConfig.jsx:72 | `parseInt` drops exactly the leading white space: a suffix of the input, every dropped character white space, the rest starting with a non-space |
| `JsText.DigitPrefix` | src/screens/stageConfig/StageConfig.jsx:72 | `parseInt` reads the longest run of digits: a prefix, all digits, followed by a non-digit or the end |
| `JsText.ParseUnsigned` | src/screens/stageConfig/StageConfig.jsx:72 | `parseInt` after the sign is NaN unless the text starts with a decimal digit |
| `JsText.ParseUnsignedOfDecimal` | src/screens/stageConfig/StageConfig.jsx:72 | a non-empty all-digit text is read as its decimal value; a leading `0` followed by a digit does not switch to base 16 |
| `JsText.ParseInt` | src/screens/stageConfig/StageConfig.jsx:72 | `parseInt` is NaN unless, after the leading white space, a sign or a digit comes first; a negative result needs a leading `-`; `ParseIntOfIntToString` gives its value on rendered integers |
| `JsText.NatToString` | src/screens/stageConfig/StageConfig.jsx:80 | a number in a template literal renders as a non-empty digit string, one digit exactly below 10, with no leading zero |
| `JsText.IntToString` | src/screens/stageConfig/StageConfig.jsx:129 | `${newStageId}` is the decimal rendering, with a leading `-` for negative ids |
| `JsText.DigitsValueOfNatToString` | src/screens/stageConfig/StageConfig.jsx:80 | reading a rendered number's digits back gives the number |
| `JsText.NatToStringInjective` | src/screens/stageConfig/StageConfig.jsx:80 | different timestamps render differently |
| `JsText.SecondFieldAfterHead` | src/screens/stageConfig/StageConfig.jsx:72 | after a dash-free head and one dash, the second field runs up to the next dash |
| `JsText.IndexOfDashInDigits` | src/screens/stageConfig/StageConfig.jsx:72 | a rendered number contains no dash, so `split("-")` keeps it whole |
| `JsText.ParseIntUnsigned` | src/screens/stageConfig/StageConfig.jsx:72 | `parseInt` of a string that starts with no space or sign is the unsigned reading |
| `JsText.ParseIntNegated` | src/screens/stageConfig/StageConfig.jsx:72 | `parseInt` of `-` and digits is the negated unsigned reading |
| `JsText.ParseIntOfIntToString` | src/screens/stageConfig/StageConfig.jsx:72 | `parseInt` reads back every integer rendered in decimal |
| `Reorder.RemoveAt` | src/screens/stageConfig/StageConfig.jsx:98 | `splice(i, 1)` shortens the list by one, shifts later elements down and removes exactly that element from the multiset |
| `Reorder.InsertAt` | src/screens/stageConfig/StageConfig.jsx:99 | `splice(i, 0, x)` puts `x` at `i`, shifts later elements up and adds exactly `x` to the multiset |
| `Reorder.Move` | src/screens/stageConfig/StageConfig.jsx:97-100 | the reorder keeps the length, puts the source element at the destination and is a permutation |
| `Reorder.MoveElements` | src/screens/stageConfig/StageConfig.jsx:97-100 | element by element, the result equals an independent description: the moved element lands on the destination and the elements between shift by one |
| `Reorder.MoveSamePosition` | src/screens/stageConfig/StageConfig.jsx:97-100 | a reorder onto the same index is the identity |
| `Reorder.MoveInverse` | src/screens/stageConfig/StageConfig.jsx:97-100 | moving back from destination to source undoes a reorder |
| `Reorder.MoveDistinct` | src/screens/stageConfig/StageConfig.jsx:97-100 | a reorder never creates a duplicate |
| `Reorder.MoveMap` | src/screens/stageConfig/StageConfig.jsx:97-100 | a reorder of the stages reorders their ids the same way |
| `Reorder.MoveOriginInjective` | src/screens/stageConfig/StageConfig.jsx:97-100 | different positions of the result come from different positions of the input |
| `StageConfig.InitialBoardValid` | src/screens/stageConfig/StageConfig.jsx:22-27 | the screen starts with the single stage `{1, "Stage 1", default detail, []}`, the flag down, and ids distinct and positive |
| `StageConfig.FindService` | src/screens/stageConfig/StageConfig.jsx:73 | `services.find` returns the first catalog entry with the dragged id, and undefined exactly when no entry has it |
| `StageConfig.StageDroppableId` | src/screens/stageConfig/StageConfig.jsx:403 | every stage zone `stage-${id}` starts with `stage-`, so it passes the test at line 71; `TargetOfStageDroppable` gives the stage it targets |
| `StageConfig.TargetStageId` | src/screens/stageConfig/StageConfig.jsx:72 | a zone id with no dash, such as `stagesContainer`, targets no stage; `TargetOfStageDroppable` gives the target of every stage zone |
| `StageConfig.TargetOfStageDroppable` | src/screens/stageConfig/StageConfig.jsx:72 | the zone `stage-${id}` targets `id` when `id >= 0`; for a negative id it parses to NaN and targets no stage |
| `StageConfig.UniqueId` | src/screens/stageConfig/StageConfig.jsx:80 | the unique id starts with the service id, followed by a dash |
| `StageConfig.UniqueIdTimestamp` | src/screens/stageConfig/StageConfig.jsx:80 | for a dash-free service id, `split("-")[1]` of the unique id parses back to the timestamp |
| `StageConfig.UniqueIdInjective` | src/screens/stageConfig/StageConfig.jsx:80 | `${id}-${now}` determines both the dash-free service id and the timestamp |
| `StageConfig.NewStage` | src/screens/stageConfig/StageConfig.jsx:127-132 | a fresh stage has the given id, the default detail, no services, and a name starting with `Stage ` |
| `StageConfig.NewStageNameCarriesId` | src/screens/stageConfig/StageConfig.jsx:129 | the text after `Stage ` in a fresh stage's name parses back to its id |
| `StageConfig.IsServiceDrop` | src/screens/stageConfig/StageConfig.jsx:71 | the service branch: a destination exists, the source is `servicesList` and the destination zone starts with `stage-` (no contract; `DropKindsExclusive` relates it to the reorder branch) |
| `StageConfig.IsStageReorder` | src/screens/stageConfig/StageConfig.jsx:94-96 | the reorder branch: a destination exists, the flag read before the call is down and both zones are `stagesContainer` (no contract; see `DropKindsExclusive`) |
| `StageConfig.OnDragStart` | src/screens/stageConfig/StageConfig.jsx:35-47 | the flag is raised when the drag starts in the catalog and is kept otherwise; the stages are untouched |
| `StageConfig.AppendService` | src/screens/stageConfig/StageConfig.jsx:76-88 | every targeted stage gains the entry at the end of its services; ids, names, details, other stages and order stay as they were |
| `StageConfig.DropService` | src/screens/stageConfig/StageConfig.jsx:72-89 | a service drop keeps the id sequence, and a dragged id that is not in the catalog changes nothing |
| `StageConfig.OnDragEnd` | src/screens/stageConfig/StageConfig.jsx:56-102 | every drag end lowers the flag, keeps the number of stages and the multiset of ids, and is a permutation or keeps the id order |
| `StageConfig.WithoutEntry` | src/screens/stageConfig/StageConfig.jsx:114 | survivors never carry the removed unique id and come from the input; every other entry keeps its exact number of occurrences; `RemoveServiceKeepsOrder` gives the order |
| `StageConfig.RemoveService` | src/screens/stageConfig/StageConfig.jsx:109-119 | only stages with that id change, and only in their services, which become the stage's services without the entry: an entry survives iff its unique id differs, with its multiplicity and order, and nothing new appears |
| `StageConfig.MaxId` | src/screens/stageConfig/StageConfig.jsx:126 | `Math.max(...ids)` is an id of the list and no id exceeds it |
| `StageConfig.AddStage` | src/screens/stageConfig/StageConfig.jsx:125-133 | one stage is appended and the prefix is unchanged; its id is above every existing id, equal to some existing id plus one, or 1 on an empty list; it is named `Stage ${id}` with the default detail and no services |
| `StageConfig.RemoveStage` | src/screens/stageConfig/StageConfig.jsx:139-141 | exactly the stages with other ids survive; nothing new appears |
| `StageConfig.UpdateStageName` | src/screens/stageConfig/StageConfig.jsx:148-152 | only the name of stages with that id changes; length, order and every other field stay |
| `StageConfig.UpdateStageDetail` | src/screens/stageConfig/StageConfig.jsx:159-163 | only the detail of stages with that id changes; length, order and every other field stay |
| `StageConfigProps.CancelledDragChangesNothing` | src/screens/stageConfig/StageConfig.jsx:60-63 | without a destination the stages are unchanged and the flag is lowered |
| `StageConfigProps.CatalogIdShapes` | src/screens/stageConfig/StageConfig.jsx:13-19 | the five catalog ids are one character long and are not dashes |
| `StageConfigProps.CatalogIdsAreShort` | src/screens/stageConfig/StageConfig.jsx:66-73 | a catalog id never starts with `stage-draggable-`, so the guard at line 66 never blocks a catalog drop |
| `StageConfigProps.CatalogDropTakesServiceBranch` | src/screens/stageConfig/StageConfig.jsx:66-89 | a catalog drop onto `stage-N` reaches the service branch and appends to the stages with id N |
| `StageConfigProps.CatalogDropAppends` | src/screens/stageConfig/StageConfig.jsx:71-90 | a catalog drop onto `stage-N` appends `{id, name, uniqueId: id-now}` to stage N only; count, order and every other stage are unchanged |
| `StageConfigProps.AppendServiceCount` | src/screens/stageConfig/StageConfig.jsx:76-88 | the total number of placed services grows by the number of targeted stages |
| `StageConfigProps.TargetedOnce` | src/screens/stageConfig/StageConfig.jsx:77 | with distinct ids, an id present in the list matches exactly one stage and an absent one matches none |
| `StageConfigProps.CatalogDropCount` | src/screens/stageConfig/StageConfig.jsx:71-90 | on a valid board a catalog drop adds exactly one service to an existing stage and none to a missing one |
| `StageConfigProps.DropKindsExclusive` | src/screens/stageConfig/StageConfig.jsx:71-96 | the service branch and the reorder branch never both apply to one drop |
| `StageConfigProps.ServiceDropMisses` | src/screens/stageConfig/StageConfig.jsx:73-90 | a service drop with an unknown dragged id, or onto a target that matches no stage, leaves the stages unchanged |
| `StageConfigProps.CatalogDragNeverReorders` | src/screens/stageConfig/StageConfig.jsx:71-101 | a drag from the catalog never changes the id order, whatever the destination or the flag |
| `StageConfigProps.StageReorderMoves` | src/screens/stageConfig/StageConfig.jsx:94-101 | with the flag down and both zones `stagesContainer`, the result is the remove-then-reinsert move: same length, a permutation, the identity for equal indices |
| `StageConfigProps.OtherDropsIgnored` | src/screens/stageConfig/StageConfig.jsx:63-101 | every other zone combination, and a reorder tried with the flag up, leaves the stages unchanged |
| `StageConfigProps.StageGestureReorders` | src/screens/stageConfig/StageConfig.jsx:35-101 | a whole stage gesture, drag start then drag end, on a board with the flag down performs the move |
| `StageConfigProps.RemoveServiceUndoesAppend` | src/screens/stageConfig/StageConfig.jsx:109-119 | removing the unique id a drop just added restores the stages, when that id was new to the stage |
| `StageConfigProps.RemoveServiceKeepsOrder` | src/screens/stageConfig/StageConfig.jsx:114 | however a stage's services are split, `removeService` leaves the survivors of the front followed by those of the back, so survivors keep their relative order |
| `StageConfigProps.RemoveServiceAbsent` | src/screens/stageConfig/StageConfig.jsx:109-119 | removing a unique id no entry carries changes nothing |
| `StageConfigProps.RemoveStageUndoesAddStage` | src/screens/stageConfig/StageConfig.jsx:125-141 | removing the stage that `addStage` created gives back the list |
| `StageConfigProps.RemovedNewestIdIsReused` | src/screens/stageConfig/StageConfig.jsx:125-141 | ids are reused: removing the newest stage and adding one again recreates it with the same id |
| `StageConfigProps.RemoveStageKeepsOrder` | src/screens/stageConfig/StageConfig.jsx:139-141 | removal distributes over concatenation, which keeps the order, and is a no-op exactly when no stage has the id |
| `StageConfigProps.RenameTwice` | src/screens/stageConfig/StageConfig.jsx:148-152 | of two renames of one stage, the second wins |
| `StageConfigProps.RenameAndDetailCommute` | src/screens/stageConfig/StageConfig.jsx:148-163 | name and detail edits commute |
| `StageConfigProps.RenameToSameName` | src/screens/stageConfig/StageConfig.jsx:148-152 | with distinct ids, writing back a stage's current name changes nothing |
| `StageConfigProps.DistinctOfFilter` | src/screens/stageConfig/StageConfig.jsx:140 | removing stages keeps ids distinct |
| `StageConfigProps.DistinctCons` | src/screens/stageConfig/StageConfig.jsx:140 | a stage whose id is new to a duplicate-free list can go in front of it |
| `StageConfigProps.HeadIdNotInRest` | src/screens/stageConfig/StageConfig.jsx:140 | with distinct ids, the first stage's id is not among the later stages that survive a filter |
| `StageConfigProps.DragEndKeepsValid` | src/screens/stageConfig/StageConfig.jsx:56-102 | a drag end keeps stage ids distinct and positive |
| `StageConfigProps.AddStageKeepsValid` | src/screens/stageConfig/StageConfig.jsx:125-133 | adding a stage keeps ids distinct and positive |
| `StageConfigProps.SameIdsKeepValid` | src/screens/stageConfig/StageConfig.jsx:109-163 | handlers that keep the id sequence (service removal, rename, detail edit) keep the invariant |
| `StageConfigProps.StepKeepsValid` | src/screens/stageConfig/StageConfig.jsx:35-163 | every handler keeps stage ids distinct and positive |
| `StageConfigProps.RunKeepsValid` | src/screens/stageConfig/StageConfig.jsx:22-163 | from a valid board, every event sequence keeps ids distinct and positive |
| `StageConfigProps.EveryStageIsADropTarget` | src/screens/stageConfig/StageConfig.jsx:72 | on a valid board every stage's own zone targets that stage |
| `StagesData.StagesShape` | src/screens/stagePreview/data/stagesData.js:15-144 | seven stages with ids 1..7 at positions 0..6, strictly increasing, each with non-empty summary and quality-check lists |
| `TimelineNavigation.MarkerClickRequest` | src/screens/stagePreview/components/TimelineNavigation.jsx:62 | a marker click requests the step numbered by the stage's id (no contract; `StagePreview.MarkerClickSelects` states its effect) |
| `TimelineNavigation.Filled` | src/screens/stagePreview/components/TimelineNavigation.jsx:66 | a marker is filled exactly when it is checked or emphasised |
| `TimelineNavigation.Checked` | src/screens/stagePreview/components/TimelineNavigation.jsx:85 | the check mark shows for stages before the current step (no contract; `MarkerPredicates` and `Status` state its relations) |
| `TimelineNavigation.Emphasised` | src/screens/stagePreview/components/TimelineNavigation.jsx:109-110 | the label is bold and green for the current stage only (no contract; `AtMostOneEmphasised` states its uniqueness) |
| `TimelineNavigation.Status` | src/screens/stagePreview/components/TimelineNavigation.jsx:66-110 | a marker is completed iff checked, current iff emphasised, and not upcoming iff filled |
| `TimelineNavigation.MarkerPredicates` | src/screens/stagePreview/components/TimelineNavigation.jsx:66-110 | a check mark implies filled; filled is checked or emphasised, and never both |
| `TimelineNavigation.AtMostOneEmphasised` | src/screens/stagePreview/components/TimelineNavigation.jsx:109-110 | with distinct ids at most one label is emphasised |
| `TimelineNavigation.FilledCountPositional` | src/screens/stagePreview/components/TimelineNavigation.jsx:54-69 | with positional ids, the number of filled markers is the current step clamped to the list |
| `NavigationControls.PrevDisabled` | src/screens/stagePreview/components/NavigationControls.jsx:33 | the previous button is disabled on step 1 (no contract; `StagePreview.DisabledMeansNoOp` ties it to the ignored request) |
| `NavigationControls.NextDisabled` | src/screens/stagePreview/components/NavigationControls.jsx:44 | the next button is disabled on the last step (no contract; `StagePreview.DisabledMeansNoOp` ties it to the ignored request) |
| `NavigationControls.OnClick` | src/screens/stagePreview/components/NavigationControls.jsx:34-45 | the previous button calls `onPrevStep`, the next button calls `onNextStep`, and nothing else |
| `StagePreview.InitialStepIsFirst` | src/screens/stagePreview/StagePreviewScreen.jsx:61 | the screen opens on step 1: in range for any non-empty list, previous button disabled, first demonstration marker current |
| `StagePreview.HandleStepChange` | src/screens/stagePreview/StagePreviewScreen.jsx:99-104 | a request outside `[1, n]` leaves the step; a request inside sets it |
| `StagePreview.PrevStep` | src/screens/stagePreview/StagePreviewScreen.jsx:152 | the previous step stays within `[1, n]`, moves back by one or not at all, and stays exactly when `step - 1` is out of range |
| `StagePreview.NextStep` | src/screens/stagePreview/StagePreviewScreen.jsx:153 | the next step stays within `[1, n]`, moves forward by one or not at all, and stays exactly when `step + 1` is out of range |
| `StagePreview.CenteredCard` | src/screens/stagePreview/StagePreviewScreen.jsx:110 | a card is centred exactly after an accepted change, and its index `newStep - 1` lies in `[0, n-1]` |
| `StagePreview.StepKeepsRange` | src/screens/stagePreview/StagePreviewScreen.jsx:99-104 | every click keeps the step inside `[1, n]` |
| `StagePreview.RunKeepsRange` | src/screens/stagePreview/StagePreviewScreen.jsx:61-104 | every click sequence keeps `1 <= currentStep <= n` |
| `StagePreview.ReachableStepsOnStagesData` | src/screens/stagePreview/StagePreviewScreen.jsx:61-153 | starting at step 1 over the seven demonstration stages, the step stays in `[1, 7]` |
| `StagePreview.PrevNextMoves` | src/screens/stagePreview/StagePreviewScreen.jsx:152-153 | previous at 1 and next at n do nothing; otherwise each moves by exactly one |
| `StagePreview.NextThenPrev` | src/screens/stagePreview/StagePreviewScreen.jsx:152-153 | next then previous returns to any step below the last |
| `StagePreview.DisabledMeansNoOp` | src/screens/stagePreview/components/NavigationControls.jsx:33-44 | a button is disabled exactly when the step change it would request is ignored |
| `StagePreview.SingleStageBothDisabled` | src/screens/stagePreview/components/NavigationControls.jsx:33-44 | with one step both buttons are disabled |
| `StagePreview.MarkerClickSelects` | src/screens/stagePreview/components/TimelineNavigation.jsx:62-110 | clicking marker i of the demonstration data selects step i+1, centres card i and emphasises only that label |
| `PostSlice.Initial` | src/redux/slices/post.js:14-19 | the slice starts with no posts, not loading, no error, no success, and so consistent |
| `PostSlice.Reduce` | src/redux/slices/post.js:21-37 | pending sets loading, clears success and error and keeps posts; fulfilled clears loading, stores the payload, sets success and keeps the error; rejected clears loading and success, stores the message and keeps posts |
| `PostSlice.ApplyKeepsConsistent` | src/redux/slices/post.js:14-37 | loading and success are never both true after any action sequence |
| `PostSlice.PendingThenFulfilled` | src/redux/slices/post.js:23-32 | pending then fulfilled leaves success with no error |
| `PostSlice.ApplyLifecycle` | src/redux/slices/post.js:23-37 | the state after one complete request, for success and for failure |
| `PostSlice.SequentialFetches` | src/redux/slices/post.js:23-37 | after requests run one at a time the store reflects the last: not loading, success iff it succeeded, its error, the latest successful posts |
| `PostSlice.OverlappingFetchesKeepStaleError` | src/redux/slices/post.js:28-37 | with overlapping requests, a late success can show success together with a stale error |

## Left out

- JSX rendering is not modelled. This covers layout, colours, scrollbars, icons, map modals and the iframe URL. None of it affects the state.
- The drag library is not modelled; its reports are the inputs. Its `isDropDisabled`/`isDragDisabled` gating and the `return false` in `onDragStart` have no effect on the state.
- `StageConfig.OnDragEnd` requires in-range indices when both zones are `stagesContainer`. The drag library guarantees this. With an out-of-range source index, JavaScript's `splice` would insert `undefined`, which is not a stage.
- `Date.now()` is the parameter `now`. If two matching stages each read the clock, the model uses one timestamp for both. This cannot happen with distinct ids. Uniqueness of `uniqueId` is not claimed, because two drops in the same millisecond collide.
- JavaScript numbers are doubles, but stage ids, steps and timestamps are unbounded integers in the model. Precision loss past 2^53 in `parseInt` or `Math.max` is not modelled.
- Saving to local storage, `addStageAfter` and a duplicate-service check are left out because the code has none of them.
- The preview screen's scroll centring is left out. It relies on DOM widths, `setTimeout` and floating point. Only the index of the card it centres is modelled.
- `progressPercentage` is left out. It is a floating-point division, and with a single stage it divides by zero.
- `StagesData.StagesShape`: a stage keeps only its id, its name and the lengths of its summary and quality-check lists. Icons, phases, locations, map URLs and the item texts are display data.
- The `fetchPosts` thunk is network I/O. Its lifecycle actions are the inputs.
- `PostSlice.Reduce`: the payload is taken to be a list. An absent rejection message and `null` are both `None`.
- The login, signup, home, routing and theme files are not part of this model.
- The pass-through components StageWidget, StagesContainer, ServicesSidebar, StageCard, StageCardsContainer, Header and StageTimeline are not part of this model. They forward callbacks or render.
