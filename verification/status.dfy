/** The transition graphs of the four aggregates. */
module StatusGraph {

  type Graph = map<string, map<string, bool>>

  const BRIDGE_ASSET_TRANSITIONS: Graph := map[
    "active" := map["restricted" := true, "closed" := true],
    "restricted" := map["closed" := true, "retired" := true, "active" := true],
    "closed" := map["retired" := true, "restricted" := true],
    "retired" := map["closed" := true]
  ]

  const INSPECTION_ROUND_TRANSITIONS: Graph := map[
    "planned" := map["running" := true, "review" := true],
    "running" := map["review" := true, "completed" := true, "planned" := true],
    "review" := map["completed" := true, "running" := true],
    "completed" := map["review" := true]
  ]

  const DEFECT_FINDING_TRANSITIONS: Graph := map[
    "new" := map["verified" := true, "monitoring" := true],
    "verified" := map["monitoring" := true, "mitigated" := true, "new" := true],
    "monitoring" := map["mitigated" := true, "closed" := true, "verified" := true],
    "mitigated" := map["closed" := true, "monitoring" := true],
    "closed" := map["mitigated" := true]
  ]

  const PRIORITY_DECISION_TRANSITIONS: Graph := map[
    "draft" := map["observe" := true, "restrict" := true, "urgent" := true],
    "observe" := map[],
    "restrict" := map[],
    "urgent" := map[]
  ]

  predicate CanTransition(graph: Graph, from: string, to: string) {
    from in graph && to in graph[from] && graph[from][to]
  }

  /** Every edge ends in a status the graph knows. */
  ghost predicate Closed(graph: Graph) {
    forall from, to :: CanTransition(graph, from, to) ==> to in graph
  }

  lemma BridgeAssetGraphIsClosed()
    ensures Closed(BRIDGE_ASSET_TRANSITIONS) && "active" in BRIDGE_ASSET_TRANSITIONS
  {
  }

  lemma InspectionRoundGraphIsClosed()
    ensures Closed(INSPECTION_ROUND_TRANSITIONS) && "planned" in INSPECTION_ROUND_TRANSITIONS
  {
  }

  lemma DefectFindingGraphIsClosed()
    ensures Closed(DEFECT_FINDING_TRANSITIONS) && "new" in DEFECT_FINDING_TRANSITIONS
  {
  }

  lemma BridgeAssetEdges(from: string, to: string)
    ensures CanTransition(BRIDGE_ASSET_TRANSITIONS, from, to)
            <==> || (from == "active" && to in {"restricted", "closed"})
                 || (from == "restricted" && to in {"closed", "retired", "active"})
                 || (from == "closed" && to in {"retired", "restricted"})
                 || (from == "retired" && to in {"closed"})
  {
  }

  lemma InspectionRoundEdges(from: string, to: string)
    ensures CanTransition(INSPECTION_ROUND_TRANSITIONS, from, to)
            <==> || (from == "planned" && to in {"running", "review"})
                 || (from == "running" && to in {"review", "completed", "planned"})
                 || (from == "review" && to in {"completed", "running"})
                 || (from == "completed" && to in {"review"})
  {
  }

  lemma DefectFindingEdges(from: string, to: string)
    ensures CanTransition(DEFECT_FINDING_TRANSITIONS, from, to)
            <==> || (from == "new" && to in {"verified", "monitoring"})
                 || (from == "verified" && to in {"monitoring", "mitigated", "new"})
                 || (from == "monitoring" && to in {"mitigated", "closed", "verified"})
                 || (from == "mitigated" && to in {"closed", "monitoring"})
                 || (from == "closed" && to in {"mitigated"})
  {
  }

  /** No status is a dead end, and no edge leads back to where it starts. */
  ghost predicate GoesOn(graph: Graph) {
    && (forall from :: from in graph ==> exists to :: CanTransition(graph, from, to))
    && (forall status :: !CanTransition(graph, status, status))
  }

  lemma BridgeAssetGraphGoesOn()
    ensures GoesOn(BRIDGE_ASSET_TRANSITIONS)
  {
    var graph := BRIDGE_ASSET_TRANSITIONS;
    assert CanTransition(graph, "active", "restricted") && CanTransition(graph, "restricted", "closed");
    assert CanTransition(graph, "closed", "retired") && CanTransition(graph, "retired", "closed");
    assert "active"[0] != "restricted"[0] && "active"[0] != "closed"[0] && "restricted"[2] != "retired"[2];
  }

  lemma InspectionRoundGraphGoesOn()
    ensures GoesOn(INSPECTION_ROUND_TRANSITIONS)
  {
    var graph := INSPECTION_ROUND_TRANSITIONS;
    assert CanTransition(graph, "planned", "running") && CanTransition(graph, "running", "review");
    assert CanTransition(graph, "review", "completed") && CanTransition(graph, "completed", "review");
  }

  lemma DefectFindingGraphGoesOn()
    ensures GoesOn(DEFECT_FINDING_TRANSITIONS)
  {
    var graph := DEFECT_FINDING_TRANSITIONS;
    assert CanTransition(graph, "new", "verified") && CanTransition(graph, "verified", "monitoring");
    assert CanTransition(graph, "monitoring", "mitigated") && CanTransition(graph, "mitigated", "closed");
    assert CanTransition(graph, "closed", "mitigated");
  }

  /** Only a draft can be decided, and a decided priority has no way on. */
  lemma DecisionEdges(from: string, to: string)
    ensures CanTransition(PRIORITY_DECISION_TRANSITIONS, from, to)
            <==> from == "draft" && to in {"observe", "restrict", "urgent"}
    ensures "draft" !in {"observe", "restrict", "urgent"}
  {
    assert |"draft"| == 5 && |"observe"| == 7 && |"restrict"| == 8 && |"urgent"| == 6;
  }
}
