/** Properties of the stage-arrangement handlers: what each drag outcome does
    to the stage list, the inverse pairs among the editing handlers, and the
    id invariant every sequence of events keeps. */
module StageConfigProps {
  import opened Wrappers
  import opened Seqs
  import opened JsText
  import Reorder
  import opened StageConfig

  // ---------------------------------------------------------------------------
  // onDragEnd, branch by branch

  /** A cancelled drag (no destination) changes no stage and clears the flag. */
  lemma CancelledDragChangesNothing(b: Board, result: DropResult, now: nat)
    requires result.destination.None?
    ensures OnDragEnd(b, result, now) == Board(b.stages, false)
  {
  }

  /** The catalog ids are single characters other than `-`. */
  lemma CatalogIdShapes()
    ensures forall k :: 0 <= k < |Catalog| ==> |Catalog[k].id| == 1 && Catalog[k].id[0] != '-'
  {
    assert Catalog[0].id == "1" && Catalog[1].id == "2" && Catalog[2].id == "3";
    assert Catalog[3].id == "4" && Catalog[4].id == "5";
  }

  lemma FoundIdIsShort(id: string)
    requires FindService(Catalog, id).Some?
    ensures |id| == 1 && id[0] != '-'
  {
    CatalogIdShapes();
  }

  lemma ShortIdShape(id: string)
    requires |id| == 1 && id[0] != '-'
    ensures '-' !in id
    ensures !StartsWith(id, StageDraggablePrefix)
  {
    assert id == [id[0]];
  }

  /** A dragged id the catalog knows is dash-free and is never a stage's draggable id. */
  lemma CatalogIdsAreShort(id: string)
    requires FindService(Catalog, id).Some?
    ensures |id| == 1 && '-' !in id
    ensures !StartsWith(id, StageDraggablePrefix)
  {
    FoundIdIsShort(id);
    ShortIdShape(id);
  }

  /** Dropping a catalog service on the zone of stage `n` appends one entry
      `{id, name, uniqueId: id-now}` to the end of every stage with id `n` and
      leaves every other stage, the number of stages and their order alone. */
  lemma CatalogDropAppends(b: Board, result: DropResult, now: nat, n: int)
    requires IsServiceDrop(result) && result.destination.value.droppableId == StageDroppableId(n) && n >= 0
    requires FindService(Catalog, result.draggableId).Some?
    ensures var svc := FindService(Catalog, result.draggableId).value;
            var entry := StageService(svc.id, svc.name, UniqueId(svc.id, now));
            var r := OnDragEnd(b, result, now).stages;
            && |r| == |b.stages|
            && StageIds(r) == StageIds(b.stages)
            && forall k :: 0 <= k < |r| ==>
                 r[k] == if b.stages[k].id == n then b.stages[k].(services := b.stages[k].services + [entry]) else b.stages[k]
  {
    CatalogDropTakesServiceBranch(b, result, now, n);
  }

  /** Such a drop takes the service branch and targets stage `n`. */
  lemma CatalogDropTakesServiceBranch(b: Board, result: DropResult, now: nat, n: int)
    requires IsServiceDrop(result) && result.destination.value.droppableId == StageDroppableId(n) && n >= 0
    requires FindService(Catalog, result.draggableId).Some?
    ensures var svc := FindService(Catalog, result.draggableId).value;
            OnDragEnd(b, result, now).stages
            == AppendService(b.stages, Some(n), StageService(svc.id, svc.name, UniqueId(svc.id, now)))
  {
    CatalogIdsAreShort(result.draggableId);
    TargetOfStageDroppable(n);
  }

  /** Number of services placed across all stages. */
  function ServiceCount(stages: seq<Stage>): nat {
    if |stages| == 0 then 0 else |stages[0].services| + ServiceCount(stages[1..])
  }

  /** Number of stages a drop target designates. */
  function Targeted(stages: seq<Stage>, target: Option<int>): nat {
    if |stages| == 0 then 0
    else (if target == Some(stages[0].id) then 1 else 0) + Targeted(stages[1..], target)
  }

  lemma {:induction false} AppendServiceCount(stages: seq<Stage>, target: Option<int>, entry: StageService)
    ensures ServiceCount(AppendService(stages, target, entry)) == ServiceCount(stages) + Targeted(stages, target)
  {
    if |stages| > 0 {
      var r := AppendService(stages, target, entry);
      AppendServiceCount(stages[1..], target, entry);
      var r' := AppendService(stages[1..], target, entry);
      assert r[1..] == r' by {
        forall k | 0 <= k < |r'| ensures r[1..][k] == r'[k] {
          assert r[k + 1].services == stages[k + 1].services + (if target == Some(stages[k + 1].id) then [entry] else []);
        }
      }
    }
  }

  /** With distinct ids, a stage id present in the list is targeted by exactly one stage. */
  lemma {:induction false} TargetedOnce(stages: seq<Stage>, n: int)
    requires Distinct(StageIds(stages))
    ensures Targeted(stages, Some(n)) == if n in StageIds(stages) then 1 else 0
  {
    if |stages| > 0 {
      var ids := StageIds(stages);
      assert StageIds(stages[1..]) == ids[1..];
      TargetedOnce(stages[1..], n);
      assert ids == [stages[0].id] + ids[1..];
      if stages[0].id == n {
        assert n !in ids[1..] by {
          forall j | 0 <= j < |ids[1..]| ensures ids[1..][j] != n {
            assert ids[0] != ids[j + 1];
          }
        }
      }
    }
  }

  /** On a valid board, a catalog drop onto an existing stage adds exactly one
      service overall; onto a missing stage it adds none. */
  lemma CatalogDropCount(b: Board, result: DropResult, now: nat, n: int)
    requires ValidStages(b.stages)
    requires IsServiceDrop(result) && result.destination.value.droppableId == StageDroppableId(n) && n >= 0
    requires FindService(Catalog, result.draggableId).Some?
    ensures ServiceCount(OnDragEnd(b, result, now).stages)
         == ServiceCount(b.stages) + (if n in StageIds(b.stages) then 1 else 0)
  {
    CatalogIdsAreShort(result.draggableId);
    TargetOfStageDroppable(n);
    var svc := FindService(Catalog, result.draggableId).value;
    AppendServiceCount(b.stages, Some(n), StageService(svc.id, svc.name, UniqueId(svc.id, now)));
    TargetedOnce(b.stages, n);
  }

  /** A service drop whose dragged id is not in the catalog, or whose target
      matches no stage id, leaves the stages as they were. */
  lemma ServiceDropMisses(b: Board, result: DropResult, now: nat)
    requires IsServiceDrop(result)
    requires FindService(Catalog, result.draggableId).None?
          || forall k :: 0 <= k < |b.stages| ==> TargetStageId(result.destination.value.droppableId) != Some(b.stages[k].id)
    ensures OnDragEnd(b, result, now).stages == b.stages
  {
    var r := OnDragEnd(b, result, now).stages;
    if FindService(Catalog, result.draggableId).Some? {
      CatalogIdsAreShort(result.draggableId);
      assert forall k :: 0 <= k < |r| ==> r[k] == b.stages[k];
    }
  }

  /** A drag that starts in the catalog never reorders stages, whatever the
      destination and whatever the flag: the id sequence stays as it was. */
  lemma CatalogDragNeverReorders(b: Board, result: DropResult, now: nat)
    requires result.source.droppableId == ServicesList
    ensures StageIds(OnDragEnd(b, result, now).stages) == StageIds(b.stages)
  {
  }

  /** The reorder branch removes the stage at the source index and reinserts
      it at the destination index. */
  lemma StageReorderMoves(b: Board, result: DropResult, now: nat)
    requires IsStageReorder(b.isDraggingService, result)
    requires DropIndicesInRange(b.stages, result)
    ensures var src, dst := result.source.index, result.destination.value.index;
            var r := OnDragEnd(b, result, now).stages;
            && r == Reorder.Move(b.stages, src, dst)
            && |r| == |b.stages|
            && multiset(r) == multiset(b.stages)
            && (src == dst ==> r == b.stages)
            && forall k :: 0 <= k < |r| ==> r[k] == b.stages[Reorder.MoveOrigin(src, dst, k)]
  {
    var src, dst := result.source.index, result.destination.value.index;
    assert result.source.droppableId != ServicesList;
    Reorder.MoveElements(b.stages, src, dst);
    if src == dst {
      Reorder.MoveSamePosition(b.stages, src);
    }
  }

  /** Every other combination of zones, and a reorder attempted while the flag
      was raised, leaves the stages as they were. */
  lemma OtherDropsIgnored(b: Board, result: DropResult, now: nat)
    requires DropIndicesInRange(b.stages, result)
    requires !IsServiceDrop(result) && !IsStageReorder(b.isDraggingService, result)
    ensures OnDragEnd(b, result, now) == Board(b.stages, false)
  {
  }

  /** A full stage gesture: start and end in the stage container on a board
      whose flag is down reorders exactly as the splice pair does. */
  lemma StageGestureReorders(b: Board, start: DragStart, result: DropResult, now: nat)
    requires !b.isDraggingService
    requires start.source.droppableId == StagesContainer && result.source == start.source
    requires result.destination.Some? && result.destination.value.droppableId == StagesContainer
    requires DropIndicesInRange(b.stages, result)
    ensures OnDragEnd(OnDragStart(b, start), result, now).stages
         == Reorder.Move(b.stages, result.source.index, result.destination.value.index)
  {
    assert StagesContainer != ServicesList;
    assert !StartsWith(StagesContainer, StageZonePrefix) by {
      assert StagesContainer[5] != StageZonePrefix[5];
    }
  }

  // ---------------------------------------------------------------------------
  // Editing handlers

  /** Removing the entry a drop just added restores the stages, provided the
      new unique id was not already present in a stage it went to. */
  lemma RemoveServiceUndoesAppend(stages: seq<Stage>, n: int, entry: StageService)
    requires forall k, j :: 0 <= k < |stages| && stages[k].id == n && 0 <= j < |stages[k].services| ==>
               stages[k].services[j].uniqueId != entry.uniqueId
    ensures RemoveService(AppendService(stages, Some(n), entry), n, entry.uniqueId) == stages
  {
    var a := AppendService(stages, Some(n), entry);
    var r := RemoveService(a, n, entry.uniqueId);
    forall k | 0 <= k < |r| ensures r[k] == stages[k] {
      if stages[k].id == n {
        var keep := (x: StageService) => x.uniqueId != entry.uniqueId;
        FilterAppend(stages[k].services, [entry], keep);
        FilterKeepsAll(stages[k].services, keep);
        assert r[k].services == WithoutEntry(a[k].services, entry.uniqueId);
      }
    }
  }

  /** `removeService` keeps the surviving services of a stage in their original
      relative order: however the stage's list is split, the result is the
      survivors of the front followed by the survivors of the back. */
  lemma RemoveServiceKeepsOrder(stages: seq<Stage>, stageId: int, uniqueId: string, k: nat,
                                front: seq<StageService>, back: seq<StageService>)
    requires k < |stages| && stages[k].id == stageId && stages[k].services == front + back
    ensures RemoveService(stages, stageId, uniqueId)[k].services
         == WithoutEntry(front, uniqueId) + WithoutEntry(back, uniqueId)
  {
    FilterAppend(front, back, (x: StageService) => x.uniqueId != uniqueId);
  }

  /** The two state-changing drop branches never both apply: a service drop
      starts in the catalog, a stage reorder in the stage list. */
  lemma DropKindsExclusive(flag: bool, result: DropResult)
    ensures !(IsServiceDrop(result) && IsStageReorder(flag, result))
  {
  }

  /** Removing a unique id no stage entry carries changes nothing. */
  lemma RemoveServiceAbsent(stages: seq<Stage>, stageId: int, uniqueId: string)
    requires forall k, j :: 0 <= k < |stages| && 0 <= j < |stages[k].services| ==>
               stages[k].services[j].uniqueId != uniqueId
    ensures RemoveService(stages, stageId, uniqueId) == stages
  {
    var r := RemoveService(stages, stageId, uniqueId);
    forall k | 0 <= k < |r| ensures r[k] == stages[k] {
      FilterKeepsAll(stages[k].services, (x: StageService) => x.uniqueId != uniqueId);
    }
  }

  /** `removeStage` of the stage `addStage` just created gives back the list. */
  lemma RemoveStageUndoesAddStage(stages: seq<Stage>)
    ensures var added := AddStage(stages);
            RemoveStage(added, added[|stages|].id) == stages
  {
    var added := AddStage(stages);
    var id := added[|stages|].id;
    var keep := (st: Stage) => st.id != id;
    assert added == stages + [added[|stages|]];
    FilterAppend(stages, [added[|stages|]], keep);
    FilterKeepsAll(stages, keep);
  }

  /** Stage ids are reused: once the newest stage is removed, the next `addStage`
      hands out the same id again (and recreates the same stage), because a new
      id is one above the largest id still present. */
  lemma RemovedNewestIdIsReused(stages: seq<Stage>)
    ensures var added := AddStage(stages);
            AddStage(RemoveStage(added, added[|stages|].id)) == added
  {
    RemoveStageUndoesAddStage(stages);
  }

  /** `removeStage` keeps the other stages in their order, and it is a no-op
      exactly when no stage has that id. */
  lemma RemoveStageKeepsOrder(front: seq<Stage>, back: seq<Stage>, stageId: int)
    ensures RemoveStage(front + back, stageId) == RemoveStage(front, stageId) + RemoveStage(back, stageId)
    ensures RemoveStage(front, stageId) == front <==> stageId !in StageIds(front)
  {
    var keep := (st: Stage) => st.id != stageId;
    FilterAppend(front, back, keep);
    FilterLength(front, keep);
    if stageId !in StageIds(front) {
      FilterKeepsAll(front, keep);
    } else {
      assert exists k :: 0 <= k < |front| && front[k].id == stageId;
    }
  }

  /** The second of two renames of the same stage wins. */
  lemma RenameTwice(stages: seq<Stage>, stageId: int, first: string, second: string)
    ensures UpdateStageName(UpdateStageName(stages, stageId, first), stageId, second)
         == UpdateStageName(stages, stageId, second)
  {
  }

  /** Renaming and editing the detail touch different fields, so their order does not matter. */
  lemma RenameAndDetailCommute(stages: seq<Stage>, a: int, name: string, c: int, detail: string)
    ensures UpdateStageDetail(UpdateStageName(stages, a, name), c, detail)
         == UpdateStageName(UpdateStageDetail(stages, c, detail), a, name)
  {
  }

  /** Writing back the name a stage already has changes nothing (ids distinct). */
  lemma RenameToSameName(stages: seq<Stage>, k: nat)
    requires k < |stages| && Distinct(StageIds(stages))
    ensures UpdateStageName(stages, stages[k].id, stages[k].name) == stages
  {
    var r := UpdateStageName(stages, stages[k].id, stages[k].name);
    var ids := StageIds(stages);
    forall j | 0 <= j < |r| ensures r[j] == stages[j] {
      assert ids[j] == stages[j].id && ids[k] == stages[k].id;
    }
  }

  // ---------------------------------------------------------------------------
  // The id invariant across every handler

  /** A user event as the screen receives it. */
  datatype Event =
    | DragStarted(start: DragStart)
    | DragEnded(result: DropResult, now: nat)
    | ServiceRemoved(stageId: int, uniqueId: string)
    | StageAdded
    | StageRemoved(stageId: int)
    | StageRenamed(stageId: int, name: string)
    | StageDetailEdited(stageId: int, detail: string)

  /** The drag library only delivers drops whose indices are in range. */
  predicate Deliverable(b: Board, e: Event) {
    e.DragEnded? ==> DropIndicesInRange(b.stages, e.result)
  }

  function Step(b: Board, e: Event): Board
    requires Deliverable(b, e)
  {
    match e
    case DragStarted(start) => OnDragStart(b, start)
    case DragEnded(result, now) => OnDragEnd(b, result, now)
    case ServiceRemoved(stageId, uniqueId) => b.(stages := RemoveService(b.stages, stageId, uniqueId))
    case StageAdded => b.(stages := AddStage(b.stages))
    case StageRemoved(stageId) => b.(stages := RemoveStage(b.stages, stageId))
    case StageRenamed(stageId, name) => b.(stages := UpdateStageName(b.stages, stageId, name))
    case StageDetailEdited(stageId, detail) => b.(stages := UpdateStageDetail(b.stages, stageId, detail))
  }

  predicate AllDeliverable(b: Board, events: seq<Event>)
    decreases |events|
  {
    |events| == 0 || (Deliverable(b, events[0]) && AllDeliverable(Step(b, events[0]), events[1..]))
  }

  function Run(b: Board, events: seq<Event>): Board
    requires AllDeliverable(b, events)
    decreases |events|
  {
    if |events| == 0 then b else Run(Step(b, events[0]), events[1..])
  }

  /** Removing stages keeps the remaining stage ids pairwise different. */
  lemma DistinctOfFilter(stages: seq<Stage>, keep: Stage -> bool)
    requires Distinct(StageIds(stages))
    ensures Distinct(StageIds(Filter(stages, keep)))
    decreases |stages|
  {
    if |stages| > 0 {
      assert StageIds(stages[1..]) == StageIds(stages)[1..];
      DistinctOfFilter(stages[1..], keep);
      var rest := Filter(stages[1..], keep);
      if keep(stages[0]) {
        HeadIdNotInRest(stages, keep);
        DistinctCons(stages[0], rest);
        assert Filter(stages, keep) == [stages[0]] + rest;
      } else {
        assert Filter(stages, keep) == rest;
      }
    }
  }

  /** A stage whose id is new to a duplicate-free list can go in front of it. */
  lemma DistinctCons(first: Stage, rest: seq<Stage>)
    requires Distinct(StageIds(rest))
    requires forall k :: 0 <= k < |rest| ==> rest[k].id != first.id
    ensures Distinct(StageIds([first] + rest))
  {
    var r := [first] + rest;
    var ids, restIds := StageIds(r), StageIds(rest);
    forall i, j | 0 <= i < j < |ids| ensures ids[i] != ids[j] {
      assert r[j] == rest[j - 1];
      if i > 0 {
        assert r[i] == rest[i - 1];
        assert restIds[i - 1] != restIds[j - 1];
      }
    }
  }

  /** With distinct ids, the first stage's id is not among the later stages that survive a filter. */
  lemma HeadIdNotInRest(stages: seq<Stage>, keep: Stage -> bool)
    requires |stages| > 0 && Distinct(StageIds(stages))
    ensures forall k :: 0 <= k < |Filter(stages[1..], keep)| ==> Filter(stages[1..], keep)[k].id != stages[0].id
  {
    var rest := Filter(stages[1..], keep);
    var ids := StageIds(stages);
    forall k | 0 <= k < |rest| ensures rest[k].id != stages[0].id {
      assert rest[k] in stages[1..];
      var m :| 0 <= m < |stages| - 1 && stages[1..][m] == rest[k];
      assert ids[0] != ids[m + 1];
    }
  }


  lemma DragEndKeepsValid(b: Board, result: DropResult, now: nat)
    requires ValidStages(b.stages) && DropIndicesInRange(b.stages, result)
    ensures ValidStages(OnDragEnd(b, result, now).stages)
  {
    var r := OnDragEnd(b, result, now).stages;
    if StageIds(r) != StageIds(b.stages) {
      // only the reorder branch changes the id sequence
      var src, dst := result.source.index, result.destination.value.index;
      assert r == Reorder.Move(b.stages, src, dst);
      Reorder.MoveMap(b.stages, (st: Stage) => st.id, src, dst);
      Reorder.MoveDistinct(StageIds(b.stages), src, dst);
      Reorder.MoveElements(b.stages, src, dst);
    } else {
      assert forall k :: 0 <= k < |r| ==> r[k].id == StageIds(r)[k] == StageIds(b.stages)[k] == b.stages[k].id;
    }
  }

  lemma AddStageKeepsValid(stages: seq<Stage>)
    requires ValidStages(stages)
    ensures ValidStages(AddStage(stages))
  {
    var r := AddStage(stages);
    assert StageIds(r) == StageIds(stages) + [r[|stages|].id];
  }

  lemma SameIdsKeepValid(stages: seq<Stage>, r: seq<Stage>)
    requires ValidStages(stages) && StageIds(r) == StageIds(stages)
    ensures ValidStages(r)
  {
    assert forall k :: 0 <= k < |r| ==> r[k].id == StageIds(r)[k] == StageIds(stages)[k] == stages[k].id;
  }

  /** Every handler keeps stage ids distinct and positive. */
  lemma StepKeepsValid(b: Board, e: Event)
    requires ValidStages(b.stages) && Deliverable(b, e)
    ensures ValidStages(Step(b, e).stages)
  {
    match e
    case DragStarted(start) =>
    case DragEnded(result, now) => DragEndKeepsValid(b, result, now);
    case ServiceRemoved(stageId, uniqueId) => SameIdsKeepValid(b.stages, Step(b, e).stages);
    case StageAdded => AddStageKeepsValid(b.stages);
    case StageRemoved(stageId) => DistinctOfFilter(b.stages, (st: Stage) => st.id != stageId);
    case StageRenamed(stageId, name) => SameIdsKeepValid(b.stages, Step(b, e).stages);
    case StageDetailEdited(stageId, detail) => SameIdsKeepValid(b.stages, Step(b, e).stages);
  }

  /** Every sequence of events, from any board whose ids are distinct and
      positive (the initial one included, by `InitialBoardValid`), keeps stage
      ids distinct and positive. */
  lemma {:induction false} RunKeepsValid(b: Board, events: seq<Event>)
    requires ValidStages(b.stages) && AllDeliverable(b, events)
    ensures ValidStages(Run(b, events).stages)
    decreases |events|
  {
    if |events| > 0 {
      StepKeepsValid(b, events[0]);
      RunKeepsValid(Step(b, events[0]), events[1..]);
    }
  }

  /** Every stage of a valid board can receive catalog drops through its zone. */
  lemma EveryStageIsADropTarget(stages: seq<Stage>, k: nat)
    requires ValidStages(stages) && k < |stages|
    ensures TargetStageId(StageDroppableId(stages[k].id)) == Some(stages[k].id)
  {
    TargetOfStageDroppable(stages[k].id);
  }
}
