/** The stage-arrangement state of the configuration screen (StageConfig.jsx):
    an ordered list of stages, each holding the catalog services dropped into
    it, plus the flag that tells a service drag from a stage reorder. Every
    handler is a pure function from the state before the event to the state
    React would hold after it. */
module StageConfig {
  import opened Wrappers
  import opened Seqs
  import opened JsText
  import Reorder

  /** An entry of the fixed service catalog. */
  datatype Service = Service(id: string, name: string)

  /** A catalog service placed in a stage; `uniqueId` is `${id}-${timestamp}`. */
  datatype StageService = StageService(id: string, name: string, uniqueId: string)

  datatype Stage = Stage(id: int, name: string, detail: string, services: seq<StageService>)

  /** Where a drag started or ended: the droppable zone and the index inside it. */
  datatype Location = Location(droppableId: string, index: nat)

  /** The drag library's start-of-drag report. */
  datatype DragStart = DragStart(source: Location, draggableId: string)

  /** The drag library's end-of-drag report; no destination means the drag was cancelled. */
  datatype DropResult = DropResult(source: Location, destination: Option<Location>, draggableId: string)

  /** The component state: the stages and the `isDraggingService` flag. */
  datatype Board = Board(stages: seq<Stage>, isDraggingService: bool)

  const Catalog: seq<Service> := [
    Service("1", "Farming inspection"),
    Service("2", "Cold store"),
    Service("3", "Bank audit"),
    Service("4", "Lab certification"),
    Service("5", "Commodity Analysis")
  ]

  const ServicesList: string := "servicesList"
  const StagesContainer: string := "stagesContainer"
  const StageZonePrefix: string := "stage-"
  const StageDraggablePrefix: string := "stage-draggable-"
  const DefaultDetail: string := "Enter stage details here"

  /** A fresh stage as the screen creates it: named after its id, default detail, no services. */
  function NewStage(id: int): (r: Stage)
    ensures r.id == id && r.detail == DefaultDetail && r.services == []
    ensures StartsWith(r.name, "Stage ")
  {
    Stage(id, "Stage " + IntToString(id), DefaultDetail, [])
  }

  /** The name of a fresh stage carries its id: the text after `Stage ` parses back to it. */
  lemma NewStageNameCarriesId(id: int)
    ensures ParseInt(NewStage(id).name[|"Stage "|..]) == Some(id)
  {
    assert NewStage(id).name[|"Stage "|..] == IntToString(id);
    ParseIntOfIntToString(id);
  }

  const InitialBoard: Board := Board([NewStage(1)], false)

  function StageIds(stages: seq<Stage>): seq<int> {
    MapSeq(stages, (st: Stage) => st.id)
  }

  /** What every reachable state satisfies: stage ids are pairwise different and positive. */
  predicate ValidStages(stages: seq<Stage>) {
    Distinct(StageIds(stages)) && forall k :: 0 <= k < |stages| ==> stages[k].id >= 1
  }

  lemma InitialBoardValid()
    ensures ValidStages(InitialBoard.stages)
    ensures !InitialBoard.isDraggingService
    ensures InitialBoard.stages == [Stage(1, "Stage 1", DefaultDetail, [])]
  {
    assert NatToString(1) == "1";
    assert "Stage " + IntToString(1) == "Stage 1";
  }

  // ---------------------------------------------------------------------------
  // Looking things up

  /** `services.find(s => s.id === id)`: the first catalog entry with that id. */
  function FindService(catalog: seq<Service>, id: string): (r: Option<Service>)
    ensures r.None? <==> forall k :: 0 <= k < |catalog| ==> catalog[k].id != id
    ensures r.Some? ==> exists k :: 0 <= k < |catalog| && catalog[k] == r.value && r.value.id == id
                                  && forall j :: 0 <= j < k ==> catalog[j].id != id
  {
    if |catalog| == 0 then None
    else if catalog[0].id == id then Some(catalog[0])
    else
      var r := FindService(catalog[1..], id);
      assert r.Some? ==> exists k :: 0 <= k < |catalog[1..]| && catalog[1..][k] == r.value && r.value.id == id
                                  && forall j :: 0 <= j < k ==> catalog[1..][j].id != id;
      assert r.Some? ==> exists k :: 1 <= k < |catalog| && catalog[k] == r.value && r.value.id == id
                                  && forall j :: 0 <= j < k ==> catalog[j].id != id;
      r
  }

  /** The droppable zone of the stage with id `id`: `stage-${id}`. */
  function StageDroppableId(id: int): (r: string)
    ensures StartsWith(r, StageZonePrefix)
  {
    StageZonePrefix + IntToString(id)
  }

  /** `parseInt(droppableId.split("-")[1])`; None is NaN, which equals no stage id. */
  function TargetStageId(droppableId: string): (r: Option<int>)
    ensures r.Some? ==> '-' in droppableId
  {
    match SecondField(droppableId, '-')
    case None => None
    case Some(field) => ParseInt(field)
  }

  /** The zone of a stage with a non-negative id leads back to that id; the zone
      of a stage with a negative id (`stage--3`) parses to NaN and targets no stage. */
  lemma TargetOfStageDroppable(id: int)
    ensures TargetStageId(StageDroppableId(id)) == if id >= 0 then Some(id) else None
  {
    var digits := NatToString(if id >= 0 then id else -id);
    var rest := IntToString(id);
    assert StageDroppableId(id) == "stage" + ['-'] + rest;
    SecondFieldAfterHead("stage", rest, '-');
    if id >= 0 {
      IndexOfDashInDigits(digits);
      assert rest[..|rest|] == rest;
      ParseIntOfIntToString(id);
    } else {
      assert rest[0] == '-';
    }
  }

  /** `${serviceId}-${now}` */
  function UniqueId(serviceId: string, now: nat): (r: string)
    ensures StartsWith(r, serviceId) && |r| > |serviceId| && r[|serviceId|] == '-'
  {
    serviceId + "-" + NatToString(now)
  }

  /** For a dash-free service id, `split("-")[1]` of the unique id is the
      timestamp's digits, and `parseInt` reads the timestamp back. */
  lemma UniqueIdTimestamp(serviceId: string, now: nat)
    requires '-' !in serviceId
    ensures SecondField(UniqueId(serviceId, now), '-').Some?
    ensures ParseInt(SecondField(UniqueId(serviceId, now), '-').value) == Some(now)
  {
    var digits := NatToString(now);
    assert UniqueId(serviceId, now) == serviceId + ['-'] + digits;
    SecondFieldAfterHead(serviceId, digits, '-');
    IndexOfDashInDigits(digits);
    assert digits[..IndexOf(digits, '-')] == digits;
    ParseIntOfIntToString(now);
  }


  /** For dash-free service ids (all catalog ids), the unique id determines
      both the service and the timestamp: two entries collide only when the same
      service is dropped twice within one millisecond. */
  lemma UniqueIdInjective(a: string, t1: nat, b: string, t2: nat)
    requires '-' !in a && '-' !in b
    requires UniqueId(a, t1) == UniqueId(b, t2)
    ensures a == b && t1 == t2
  {
    IndexOfAppend(a, "-" + NatToString(t1), '-');
    IndexOfAppend(b, "-" + NatToString(t2), '-');
    assert UniqueId(a, t1) == a + ("-" + NatToString(t1));
    assert UniqueId(b, t2) == b + ("-" + NatToString(t2));
    assert |a| == |b|;
    assert a == UniqueId(a, t1)[..|a|];
    assert b == UniqueId(b, t2)[..|b|];
    assert NatToString(t1) == UniqueId(a, t1)[|a| + 1..];
    assert NatToString(t2) == UniqueId(b, t2)[|b| + 1..];
    NatToStringInjective(t1, t2);
  }

  // ---------------------------------------------------------------------------
  // Dragging

  /** `onDragStart`: a drag from the catalog raises the flag; nothing else changes.
      (Its `return false` has no effect on the state.) */
  function OnDragStart(b: Board, start: DragStart): (r: Board)
    ensures r.stages == b.stages
    ensures r.isDraggingService <==> b.isDraggingService || start.source.droppableId == ServicesList
  {
    if start.source.droppableId == ServicesList then b.(isDraggingService := true) else b
  }

  /** Appends `entry` to the services of every stage whose id is the target. */
  function AppendService(stages: seq<Stage>, target: Option<int>, entry: StageService): (r: seq<Stage>)
    ensures |r| == |stages|
    ensures forall k :: 0 <= k < |r| ==>
      && r[k].id == stages[k].id && r[k].name == stages[k].name && r[k].detail == stages[k].detail
      && r[k].services == stages[k].services + (if target == Some(stages[k].id) then [entry] else [])
    ensures StageIds(r) == StageIds(stages)
  {
    var r := seq(|stages|, k requires 0 <= k < |stages| =>
      if target == Some(stages[k].id) then stages[k].(services := stages[k].services + [entry]) else stages[k]);
    assert StageIds(r) == StageIds(stages);
    r
  }

  /** A service drop: when the dragged id names a catalog service, a copy of it
      with a timestamped unique id goes to the end of the target stage. */
  function DropService(stages: seq<Stage>, droppableId: string, draggableId: string, now: nat): (r: seq<Stage>)
    ensures StageIds(r) == StageIds(stages)
    ensures FindService(Catalog, draggableId).None? ==> r == stages
  {
    match FindService(Catalog, draggableId)
    case None => stages
    case Some(svc) => AppendService(stages, TargetStageId(droppableId), StageService(svc.id, svc.name, UniqueId(svc.id, now)))
  }

  /** The drop of a service from the catalog onto a stage zone (line 71). */
  predicate IsServiceDrop(result: DropResult) {
    && result.destination.Some?
    && result.source.droppableId == ServicesList
    && StartsWith(result.destination.value.droppableId, StageZonePrefix)
  }

  /** The stage reorder branch (line 94), read with the flag as it was before the call. */
  predicate IsStageReorder(flag: bool, result: DropResult) {
    && result.destination.Some?
    && !flag
    && result.source.droppableId == StagesContainer
    && result.destination.value.droppableId == StagesContainer
  }

  /** The drag library only reports indices inside the list a stage is dragged within. */
  predicate DropIndicesInRange(stages: seq<Stage>, result: DropResult) {
    (result.source.droppableId == StagesContainer && result.destination.Some?
       && result.destination.value.droppableId == StagesContainer)
    ==> result.source.index < |stages| && result.destination.value.index < |stages|
  }

  /** `onDragEnd`. The flag is reset, but the checks below read the value it had
      before the call, as the handler's closure does. `now` is `Date.now()`. */
  function OnDragEnd(b: Board, result: DropResult, now: nat): (r: Board)
    requires DropIndicesInRange(b.stages, result)
    ensures !r.isDraggingService
    ensures |r.stages| == |b.stages|
    ensures multiset(StageIds(r.stages)) == multiset(StageIds(b.stages))
    ensures multiset(r.stages) == multiset(b.stages) || StageIds(r.stages) == StageIds(b.stages)
  {
    var flag := b.isDraggingService;
    if result.destination.None? then
      Board(b.stages, false)
    else if StartsWith(result.draggableId, StageDraggablePrefix) && flag then
      Board(b.stages, false)
    else if IsServiceDrop(result) then
      Board(DropService(b.stages, result.destination.value.droppableId, result.draggableId, now), false)
    else if IsStageReorder(flag, result) then
      var moved := Reorder.Move(b.stages, result.source.index, result.destination.value.index);
      Reorder.MoveMap(b.stages, (st: Stage) => st.id, result.source.index, result.destination.value.index);
      Board(moved, false)
    else
      Board(b.stages, false)
  }

  // ---------------------------------------------------------------------------
  // Editing

  /** The services of one stage without the entries carrying `uniqueId`. */
  function WithoutEntry(services: seq<StageService>, uniqueId: string): (r: seq<StageService>)
    ensures forall j :: 0 <= j < |r| ==> r[j].uniqueId != uniqueId && r[j] in services
    ensures forall j :: 0 <= j < |services| && services[j].uniqueId != uniqueId ==>
      multiset(r)[services[j]] == multiset(services)[services[j]]
    ensures multiset(r) <= multiset(services)
  {
    var keep := (x: StageService) => x.uniqueId != uniqueId;
    forall j | 0 <= j < |services| && services[j].uniqueId != uniqueId
      ensures multiset(Filter(services, keep))[services[j]] == multiset(services)[services[j]]
    {
      FilterCount(services, keep, services[j]);
    }
    Filter(services, keep)
  }

  /** `removeService(stageId, uniqueId)` */
  function RemoveService(stages: seq<Stage>, stageId: int, uniqueId: string): (r: seq<Stage>)
    ensures |r| == |stages|
    ensures forall k :: 0 <= k < |r| ==>
      r[k].id == stages[k].id && r[k].name == stages[k].name && r[k].detail == stages[k].detail
    ensures forall k :: 0 <= k < |r| && stages[k].id != stageId ==> r[k] == stages[k]
    ensures forall k :: 0 <= k < |r| && stages[k].id == stageId ==>
      r[k].services == WithoutEntry(stages[k].services, uniqueId)
    ensures forall k, j :: 0 <= k < |r| && stages[k].id == stageId && 0 <= j < |r[k].services| ==>
      r[k].services[j].uniqueId != uniqueId && r[k].services[j] in stages[k].services
    ensures forall k, j :: 0 <= k < |r| && 0 <= j < |stages[k].services| && stages[k].services[j].uniqueId != uniqueId ==>
      stages[k].services[j] in r[k].services
    ensures StageIds(r) == StageIds(stages)
  {
    var r := seq(|stages|, k requires 0 <= k < |stages| =>
      if stages[k].id == stageId then stages[k].(services := WithoutEntry(stages[k].services, uniqueId)) else stages[k]);
    assert StageIds(r) == StageIds(stages);
    r
  }

  /** Largest stage id. */
  function MaxId(stages: seq<Stage>): (m: int)
    requires |stages| > 0
    ensures forall k :: 0 <= k < |stages| ==> stages[k].id <= m
    ensures exists k :: 0 <= k < |stages| && stages[k].id == m
  {
    if |stages| == 1 then stages[0].id
    else
      var m := MaxId(stages[1..]);
      assert forall k :: 1 <= k < |stages| ==> stages[k] == stages[1..][k - 1];
      if stages[0].id >= m then stages[0].id else m
  }

  /** `addStage`: a new stage goes to the end with id one above the largest id, or 1. */
  function AddStage(stages: seq<Stage>): (r: seq<Stage>)
    ensures |r| == |stages| + 1
    ensures r[..|stages|] == stages
    ensures forall k :: 0 <= k < |stages| ==> stages[k].id < r[|stages|].id
    ensures |stages| == 0 ==> r[0].id == 1
    ensures |stages| > 0 ==> exists k :: 0 <= k < |stages| && stages[k].id == r[|stages|].id - 1
    ensures r[|stages|] == NewStage(r[|stages|].id)
  {
    var newId := if |stages| > 0 then MaxId(stages) + 1 else 1;
    stages + [NewStage(newId)]
  }

  /** `removeStage(stageId)` */
  function RemoveStage(stages: seq<Stage>, stageId: int): (r: seq<Stage>)
    ensures forall k :: 0 <= k < |r| ==> r[k].id != stageId && r[k] in stages
    ensures forall k :: 0 <= k < |stages| && stages[k].id != stageId ==> stages[k] in r
    ensures multiset(r) <= multiset(stages)
  {
    Filter(stages, (st: Stage) => st.id != stageId)
  }

  /** `updateStageName(stageId, newName)` */
  function UpdateStageName(stages: seq<Stage>, stageId: int, newName: string): (r: seq<Stage>)
    ensures |r| == |stages|
    ensures forall k :: 0 <= k < |r| ==>
      && r[k].id == stages[k].id && r[k].detail == stages[k].detail && r[k].services == stages[k].services
      && r[k].name == (if stages[k].id == stageId then newName else stages[k].name)
    ensures StageIds(r) == StageIds(stages)
  {
    var r := seq(|stages|, k requires 0 <= k < |stages| =>
      if stages[k].id == stageId then stages[k].(name := newName) else stages[k]);
    assert StageIds(r) == StageIds(stages);
    r
  }

  /** `updateStageDetail(stageId, newDetail)` */
  function UpdateStageDetail(stages: seq<Stage>, stageId: int, newDetail: string): (r: seq<Stage>)
    ensures |r| == |stages|
    ensures forall k :: 0 <= k < |r| ==>
      && r[k].id == stages[k].id && r[k].name == stages[k].name && r[k].services == stages[k].services
      && r[k].detail == (if stages[k].id == stageId then newDetail else stages[k].detail)
    ensures StageIds(r) == StageIds(stages)
  {
    var r := seq(|stages|, k requires 0 <= k < |stages| =>
      if stages[k].id == stageId then stages[k].(detail := newDetail) else stages[k]);
    assert StageIds(r) == StageIds(stages);
    r
  }
}
