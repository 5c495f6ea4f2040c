/** Plans, the answers of retrievers, and the context pack that a query ends in. */
module RetrievalModel {
  import opened Wrappers
  import opened GraphModel
  import opened Arbiter

  const BUSINESS_DATA := "business_data"
  const ENTITY_GRAPH := "entity_graph"
  const WIKI_RAG := "wiki_rag"
  const ONTOLOGY_GRAPH := "ontology_graph"

  datatype Step = Step(id: string, source: string, required: bool)

  datatype Plan = Plan(query: string, steps: seq<Step>, allowFallback: bool, blockingIssues: seq<string>)

  datatype Knowledge = Knowledge(id: string, content: string, score: real, evidence: seq<Evidence>)

  datatype Path = Path(nodes: seq<string>, relations: seq<string>, evidence: seq<Evidence>)

  datatype Answer = Answer(assertions: seq<Assertion>, knowledge: seq<Knowledge>, paths: seq<Path>, gaps: seq<string>)

  /** What a retriever returns; an answer may come along with an error. */
  datatype Reply = Reply(answer: Answer, error: Option<string>)

  datatype StepResult = StepResult(
    stepId: string, source: string, required: bool, satisfied: bool, knowledge: seq<Knowledge>, paths: seq<Path>,
    gaps: seq<string>)

  datatype SourceStatus = SourceStatus(
    stepId: string, source: string, required: bool, satisfied: bool, gaps: seq<string>)

  datatype Pack = Pack(
    plan: Plan, facts: seq<Assertion>, knowledge: seq<Knowledge>, paths: seq<Path>, arbitration: seq<Verdict>,
    evidence: seq<Evidence>, conflicts: seq<Verdict>, sourceStatus: seq<SourceStatus>, gaps: seq<string>,
    blockingGaps: seq<string>, complete: bool)
}
