/** The agent's wiring: four nodes, the entry point and the edges added when
    the graph is built, and the run that follows those edges from the entry. */
module AgentGraph {
  import opened Wrappers
  import opened Strings
  import opened Agent

  /** The graph's nodes, one per stage. */
  datatype Node = Planner | RetrieverNode | AnswerGenerator | Reflector

  /** Where an edge leads: another node or the end of the run. */
  datatype Target = Step(node: Node) | End

  const EntryPoint: Node := Planner

  /** Position of a node along the chain of edges. */
  function Rank(n: Node): nat {
    match n
    case Planner => 0
    case RetrieverNode => 1
    case AnswerGenerator => 2
    case Reflector => 3
  }

  /** The edges: planner, retriever, answer generator, reflector, end. */
  function Edge(n: Node): (t: Target)
    ensures t.Step? ==> Rank(t.node) == Rank(n) + 1
    ensures t.End? <==> n == Reflector
  {
    match n
    case Planner => Step(RetrieverNode)
    case RetrieverNode => Step(AnswerGenerator)
    case AnswerGenerator => Step(Reflector)
    case Reflector => End
  }

  /** The nodes visited from `n`, following edges until the end. */
  function Walk(n: Node): (path: seq<Node>)
    ensures |path| > 0 && path[0] == n
    ensures forall i :: 0 <= i < |path| - 1 ==> Edge(path[i]) == Step(path[i + 1])
    ensures Edge(path[|path| - 1]) == End
    ensures forall i :: 0 <= i < |path| ==> Rank(path[i]) == Rank(n) + i
    decreases 4 - Rank(n)
  {
    match Edge(n)
    case End => [n]
    case Step(m) => [n] + Walk(m)
  }

  /** The stage function a node runs. */
  function RunNode(n: Node, st: AgentState, svc: Services): AgentState {
    match n
    case Planner => Plan(st)
    case RetrieverNode => Retrieve(st, svc)
    case AnswerGenerator => Answer(st, svc)
    case Reflector => Reflect(st, svc)
  }

  /** Runs the nodes of `path` in order, each on the state the previous one returned. */
  function RunPath(path: seq<Node>, st: AgentState, svc: Services): AgentState
    decreases |path|
  {
    if |path| == 0 then st else RunPath(path[1..], RunNode(path[0], st, svc), svc)
  }

  /** Every node is visited exactly once, in stage order, with no branching. */
  lemma WalkFromEntry()
    ensures Walk(EntryPoint) == [Planner, RetrieverNode, AnswerGenerator, Reflector]
  {
  }

  /** Running the four stages along the walk from the entry point is their
      composition, in stage order. */
  lemma RunFromEntry(st: AgentState, svc: Services)
    ensures RunPath(Walk(EntryPoint), st, svc) == Reflect(Answer(Retrieve(Plan(st), svc), svc), svc)
  {
    WalkFromEntry();
    var path := [Planner, RetrieverNode, AnswerGenerator, Reflector];
    assert path[1..] == [RetrieverNode, AnswerGenerator, Reflector];
    assert path[1..][1..] == [AnswerGenerator, Reflector];
    assert path[1..][1..][1..] == [Reflector];
    assert path[1..][1..][1..][1..] == [];
  }

  /** The compiled agent: the walk from the entry point, run on the initial state. */
  function RunAgent(question: string, svc: Services): (r: AgentState)
    ensures r.input == question
    ensures r.reflection == Some(svc.llm(ReflectionPromptText(question, Show(r.answer))))
    ensures !MentionsKeyword(question) ==>
      r.context == Some(NoRetrievalSentinel) && r.answer == Some(svc.llm(question))
    ensures MentionsKeyword(question) ==>
      r.context == Some(Join(Texts(svc.retriever(question)), DocSeparator))
    ensures Grounded(r.context) ==> r.answer == PickAnswer(svc.chain(question, r.context.value))
    ensures !Grounded(r.context) ==> r.answer == Some(svc.llm(question))
  {
    var st := Initial(question);
    RunFromEntry(st, svc);
    RunPath(Walk(EntryPoint), st, svc)
  }

  /** The run does not depend on what the non-input fields held at the start:
      each stage reads only `input` and the fields earlier stages wrote. */
  lemma RunIgnoresInitialFields(st: AgentState, svc: Services)
    ensures RunPath(Walk(EntryPoint), st, svc) == RunAgent(st.input, svc)
  {
    RunFromEntry(st, svc);
    RunFromEntry(Initial(st.input), svc);
  }

  /** A keyword question whose search returns no document gets an empty context
      and is answered by the plain model. */
  lemma NoDocumentsAnswersUngrounded(question: string, svc: Services)
    requires MentionsKeyword(question)
    requires svc.retriever(question) == []
    ensures RunAgent(question, svc).context == Some("")
    ensures RunAgent(question, svc).answer == Some(svc.llm(question))
  {
  }

  /** A retrieved text that is exactly the sentinel is indistinguishable from no
      retrieval, and the question is answered by the plain model. */
  lemma SentinelDocumentAnswersUngrounded(question: string, svc: Services)
    requires MentionsKeyword(question)
    requires Texts(svc.retriever(question)) == [NoRetrievalSentinel]
    ensures RunAgent(question, svc).context == Some(NoRetrievalSentinel)
    ensures RunAgent(question, svc).answer == Some(svc.llm(question))
  {
  }

  /** The grounded chain is used exactly when the question mentions a keyword and
      the joined documents are neither empty nor the sentinel; with two or more
      documents, or one non-empty one, the context is never empty. */
  lemma GroundedExactly(question: string, svc: Services)
    ensures Grounded(RunAgent(question, svc).context) <==>
      MentionsKeyword(question)
      && !(|svc.retriever(question)| == 0 || (|svc.retriever(question)| == 1 && svc.retriever(question)[0].pageContent == ""))
      && Join(Texts(svc.retriever(question)), DocSeparator) != NoRetrievalSentinel
  {
    var texts := Texts(svc.retriever(question));
    JoinEmptyIff(texts, DocSeparator);
  }

  /** A keyword question with at least two retrieved documents is always answered
      by the grounded chain, on the texts joined in the order returned: the join
      holds a blank line, which neither the empty context nor the sentinel has. */
  lemma SeveralDocumentsAnswerGrounded(question: string, svc: Services)
    requires MentionsKeyword(question)
    requires |svc.retriever(question)| >= 2
    ensures Grounded(RunAgent(question, svc).context)
    ensures RunAgent(question, svc).answer ==
      PickAnswer(svc.chain(question, Join(Texts(svc.retriever(question)), DocSeparator)))
  {
    var texts := Texts(svc.retriever(question));
    var joined := Join(texts, DocSeparator);
    JoinSplit(texts, DocSeparator, 1);
    var head := Join(texts[..1], DocSeparator);
    assert joined == head + DocSeparator + Join(texts[1..], DocSeparator);
    assert joined[|head|] == '\n';
    assert '\n' in joined;
    assert '\n' !in NoRetrievalSentinel;
  }
}
