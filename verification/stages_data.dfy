/** The fixed demonstration stages shown by the preview screen (stagesData.js).
    Only what navigation depends on is kept: each stage's id and name, and the
    lengths of its summary and quality-check lists. */
module StagesData {

  datatype PreviewStage = PreviewStage(id: int, name: string, summaryItemCount: nat, qualityCheckCount: nat)

  const Stages: seq<PreviewStage> := [
    PreviewStage(1, "Farm Inspection", 4, 3),
    PreviewStage(2, "Harvest & Post-Harvest", 3, 3),
    PreviewStage(3, "Pre-Shipment Inspection", 3, 3),
    PreviewStage(4, "Export & Transit", 4, 3),
    PreviewStage(5, "Port Arrival & Customs", 4, 2),
    PreviewStage(6, "Warehouse Inspection", 3, 3),
    PreviewStage(7, "Final Distribution", 3, 3)
  ]

  /** Ids equal positions plus one: step k, card k - 1 and the stage with id k coincide. */
  predicate PositionalIds(stages: seq<PreviewStage>) {
    forall i :: 0 <= i < |stages| ==> stages[i].id == i + 1
  }

  /** The shape of the demonstration data: seven stages, positional (hence
      unique and strictly increasing) ids, and non-empty detail lists. */
  lemma StagesShape()
    ensures |Stages| == 7
    ensures PositionalIds(Stages)
    ensures forall i, j :: 0 <= i < j < |Stages| ==> Stages[i].id < Stages[j].id
    ensures forall i :: 0 <= i < |Stages| ==> Stages[i].summaryItemCount > 0 && Stages[i].qualityCheckCount > 0
  {
  }
}
