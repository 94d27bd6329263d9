/** The four stages of the medical question-answering agent. Each stage is a
    pure function from state to state; the vector store, the grounded
    document chain and the language model are parameters. */
module Agent {
  import opened Wrappers
  import opened Strings

  /** The shared state record: the question, the working `context` field and
      the two outputs. Every field but `input` starts out as `None`. */
  datatype AgentState = AgentState(
    input: string,
    context: Option<string>,
    answer: Option<string>,
    reflection: Option<string>)

  /** A retrieved document; only its text is read. */
  datatype Document = Document(pageContent: string)

  /** The hosted collaborators, as uninterpreted functions.
      `retriever` is the top-3 similarity search on the question,
      `chain` is the grounded chain called with (question, context) and
      returning its response fields (a field mapped to `None` holds Python's `None`),
      `llm` is the plain model call returning the reply text. */
  datatype Services = Services(
    retriever: string -> seq<Document>,
    chain: (string, string) -> map<string, Option<string>>,
    llm: string -> string)

  /** The state the request handler starts the agent with. */
  function Initial(question: string): (st: AgentState)
    ensures st.input == question
    ensures st.context.None? && st.answer.None? && st.reflection.None?
  {
    AgentState(question, None, None, None)
  }

  /** The clinical keywords the planner looks for. */
  const Keywords: seq<string> := ["disease", "symptom", "treatment", "medicine", "drug", "diagnosis"]

  const RetrieveTag: string := "RETRIEVE"
  const NoRetrieveTag: string := "NO_RETRIEVE"

  /** The text the retrieve stage stores when it did not retrieve. */
  const NoRetrievalSentinel: string := "No retrieval needed."

  /** The grounded path's fallback, with a U+2019 apostrophe. */
  const Apology: string := "Sorry, I couldn\U{2019}t find that information."

  /** Some keyword occurs in the lower-cased question. */
  ghost predicate MentionsKeyword(question: string) {
    exists k :: 0 <= k < |Keywords| && Occurs(Keywords[k], Lower(question))
  }

  /** The planner's test: any keyword is a substring of the lower-cased question. */
  function NeedsRetrieval(question: string): (b: bool)
    ensures b <==> MentionsKeyword(question)
  {
    var query := Lower(question);
    exists k | 0 <= k < |Keywords| :: Contains(query, Keywords[k])
  }

  /** plan: sets the routing tag and touches nothing else. */
  function Plan(st: AgentState): (r: AgentState)
    ensures r.context == Some(if MentionsKeyword(st.input) then RetrieveTag else NoRetrieveTag)
    ensures r.input == st.input && r.answer == st.answer && r.reflection == st.reflection
  {
    st.(context := Some(if NeedsRetrieval(st.input) then RetrieveTag else NoRetrieveTag))
  }

  /** The texts of the documents, in the order returned. */
  function Texts(docs: seq<Document>): (r: seq<string>)
    ensures |r| == |docs|
    ensures forall i :: 0 <= i < |docs| ==> r[i] == docs[i].pageContent
  {
    seq(|docs|, i requires 0 <= i < |docs| => docs[i].pageContent)
  }

  /** The separator placed between retrieved texts. */
  const DocSeparator: string := "\n\n"

  /** retrieve: on the retrieval tag, the retrieved texts joined by a blank line;
      on any other value, including an unset field, the sentinel. */
  function Retrieve(st: AgentState, svc: Services): (r: AgentState)
    ensures st.context == Some(RetrieveTag) ==>
      r.context == Some(Join(Texts(svc.retriever(st.input)), DocSeparator))
    ensures st.context != Some(RetrieveTag) ==> r.context == Some(NoRetrievalSentinel)
    ensures r.input == st.input && r.answer == st.answer && r.reflection == st.reflection
  {
    if st.context == Some(RetrieveTag) then
      var docs := svc.retriever(st.input);
      st.(context := Some(Join(Texts(docs), DocSeparator)))
    else
      st.(context := Some(NoRetrievalSentinel))
  }

  /** Python truthiness of an optional string: set and non-empty. */
  predicate Truthy(v: Option<string>) {
    v.Some? && v.value != ""
  }

  /** `response.get(key)`: `None` when the key is absent. */
  function Get(response: map<string, Option<string>>, key: string): (v: Option<string>)
    ensures key !in response ==> v.None?
    ensures key in response ==> v == response[key]
  {
    if key in response then response[key] else None
  }

  /** `response.get("output_text") or response.get("answer", Apology)`. */
  function PickAnswer(response: map<string, Option<string>>): (a: Option<string>)
    ensures Truthy(Get(response, "output_text")) ==> a == Get(response, "output_text")
    ensures !Truthy(Get(response, "output_text")) && "answer" in response ==> a == response["answer"]
    ensures !Truthy(Get(response, "output_text")) && "answer" !in response ==> a == Some(Apology)
  {
    var out := Get(response, "output_text");
    if Truthy(out) then out
    else if "answer" in response then response["answer"]
    else Some(Apology)
  }

  /** The answer stage's branch: the context is set, non-empty and not the sentinel. */
  predicate Grounded(context: Option<string>) {
    Truthy(context) && context.value != NoRetrievalSentinel
  }

  /** answer: the grounded chain on (question, context), or the plain model on
      exactly the question. */
  function Answer(st: AgentState, svc: Services): (r: AgentState)
    ensures Grounded(st.context) ==> r.answer == PickAnswer(svc.chain(st.input, st.context.value))
    ensures !Grounded(st.context) ==> r.answer == Some(svc.llm(st.input))
    ensures r.input == st.input && r.context == st.context && r.reflection == st.reflection
  {
    if Grounded(st.context) then
      var response := svc.chain(st.input, st.context.value);
      st.(answer := PickAnswer(response))
    else
      st.(answer := Some(svc.llm(st.input)))
  }

  /** The instruction that closes the reflection prompt. */
  const ReflectInstruction: string :=
    "Does the answer correctly and directly address the question? "
    + "Respond with 'Yes' or 'No' and a short reason."

  /** How a Python f-string renders an optional string: `None` prints as "None". */
  function Show(v: Option<string>): string {
    match v
    case Some(s) => s
    case None => "None"
  }

  const QuestionLabel: string := "Question: "
  const AnswerLabel: string := "\nAnswer: "
  const PromptTail: string := "\n\n" + ReflectInstruction

  /** The reflection prompt around a question and an answer text. */
  function ReflectionPromptText(question: string, answerText: string): string {
    QuestionLabel + question + AnswerLabel + answerText + PromptTail
  }

  /** reflect: the model's reply to the critique prompt. */
  function Reflect(st: AgentState, svc: Services): (r: AgentState)
    ensures r.reflection == Some(svc.llm(ReflectionPromptText(st.input, Show(st.answer))))
    ensures r.input == st.input && r.context == st.context && r.answer == st.answer
  {
    st.(reflection := Some(svc.llm(ReflectionPromptText(st.input, Show(st.answer)))))
  }

  /** A keyword written in any ASCII case, anywhere in the question, routes to
      retrieval; the match is a substring match, so "symptoms" and "drugstore" count. */
  lemma KeywordAnywhereRetrieves(before: string, word: string, after: string, k: nat)
    requires k < |Keywords|
    requires Lower(word) == Keywords[k]
    ensures Plan(Initial(before + word + after)).context == Some(RetrieveTag)
  {
    var q := before + word + after;
    LowerConcat(before + word, after);
    LowerConcat(before, word);
    assert Keywords[k] <= Keywords[k];
    assert Contains(Keywords[k], Keywords[k]);
    ContainsWithin(Lower(before), Keywords[k], Lower(after), Keywords[k]);
    assert Contains(Lower(q), Keywords[k]);
  }

  /** The substring test at work: "symptoms" matches "symptom", and upper-case
      "DRUGSTORE" matches "drug". */
  lemma PlanRoutesKeywordQuestions()
    ensures Plan(Initial("What are the symptoms of diabetes?")).context == Some(RetrieveTag)
    ensures Plan(Initial("Is there a DRUGSTORE nearby?")).context == Some(RetrieveTag)
  {
    assert Lower("symptom") == Keywords[1];
    assert "What are the " + "symptom" + "s of diabetes?" == "What are the symptoms of diabetes?";
    KeywordAnywhereRetrieves("What are the ", "symptom", "s of diabetes?", 1);
    assert Lower("DRUG") == Keywords[4];
    assert "Is there a " + "DRUG" + "STORE nearby?" == "Is there a DRUGSTORE nearby?";
    KeywordAnywhereRetrieves("Is there a ", "DRUG", "STORE nearby?", 4);
  }

  /** A question in which no letter lower-cases to `d`, `s` or `m` mentions no
      keyword: every keyword holds one of those letters. */
  lemma NoKeywordLetters(question: string)
    requires forall i :: 0 <= i < |question| ==> LowerChar(question[i]) !in "dsm"
    ensures Plan(Initial(question)).context == Some(NoRetrieveTag)
  {
    var q := Lower(question);
    assert 'd' !in q && 's' !in q && 'm' !in q by {
      forall i | 0 <= i < |q|
        ensures q[i] != 'd' && q[i] != 's' && q[i] != 'm'
      {
        assert q[i] == LowerChar(question[i]);
      }
    }
    forall k | 0 <= k < |Keywords|
      ensures !Contains(q, Keywords[k])
    {
      if k == 2 {
        assert Keywords[2][5] == 'm';
        ContainsCharOf(q, Keywords[2], 5);
      } else {
        assert Keywords[k][0] in "dsm";
        ContainsCharOf(q, Keywords[k], 0);
      }
    }
    assert !NeedsRetrieval(question);
  }

  /** Small talk is not routed to retrieval. */
  lemma PlanSkipsSmallTalk()
    ensures Plan(Initial("How are you?")).context == Some(NoRetrieveTag)
  {
    NoKeywordLetters("How are you?");
  }

  /** Two questions that lower-case alike are routed alike. */
  lemma PlanIgnoresCase(a: string, b: string)
    requires Lower(a) == Lower(b)
    ensures Plan(Initial(a)).context == Plan(Initial(b)).context
  {
  }

  /** The grounded fallback is `None` exactly when `output_text` is falsy and the
      `"answer"` field holds `None`; the apology appears only when `"answer"` is
      absent or one of the two fields already holds the apology text. */
  lemma PickAnswerCases(response: map<string, Option<string>>)
    ensures PickAnswer(response).None? <==>
      !Truthy(Get(response, "output_text")) && "answer" in response && response["answer"].None?
    ensures PickAnswer(response) == Some(Apology) ==>
      Get(response, "output_text") == Some(Apology)
      || ("answer" in response && response["answer"] == Some(Apology))
      || "answer" !in response
  {
  }

  /** Index of the first newline of `s`, or `|s|` when there is none. */
  function FirstNewline(s: string): (i: nat)
    ensures i <= |s|
    ensures '\n' !in s[..i]
    ensures i < |s| ==> s[i] == '\n'
  {
    if |s| == 0 || s[0] == '\n' then 0
    else
      var j := FirstNewline(s[1..]);
      assert s[..j + 1] == [s[0]] + s[1..][..j];
      j + 1
  }

  /** Reads `pre + x + mid + y + post` back into `(x, y)`, where `x` ends at the
      first newline between `pre` and `post` and `mid` must follow it. */
  function ParseFramed(p: string, pre: string, mid: string, post: string): Option<(string, string)> {
    if |p| >= |pre| + |post| && pre <= p && p[|p| - |post|..] == post then
      var body := p[|pre|..|p| - |post|];
      var i := FirstNewline(body);
      if mid <= body[i..] then Some((body[..i], body[i + |mid|..]))
      else None
    else None
  }

  /** Reads a reflection prompt back into its question and its answer text. */
  function ParseReflectionPrompt(p: string): Option<(string, string)> {
    ParseFramed(p, QuestionLabel, AnswerLabel, PromptTail)
  }

  /** The first newline of a text whose head has none lies at the end of that head. */
  lemma {:induction false} FirstNewlineAfter(head: string, rest: string)
    requires '\n' !in head
    requires |rest| > 0 && rest[0] == '\n'
    ensures FirstNewline(head + rest) == |head|
    decreases |head|
  {
    if |head| > 0 {
      assert (head + rest)[1..] == head[1..] + rest;
      FirstNewlineAfter(head[1..], rest);
    } else {
      assert head + rest == rest;
    }
  }

  /** Framing a newline-free `x` and any `y` and parsing them back is the identity. */
  lemma ParseFramedRoundTrip(pre: string, x: string, mid: string, y: string, post: string)
    requires '\n' !in x
    requires |mid| > 0 && mid[0] == '\n'
    ensures ParseFramed(pre + x + mid + y + post, pre, mid, post) == Some((x, y))
  {
    var p := pre + x + mid + y + post;
    var body := x + mid + y;
    assert p == pre + body + post;
    assert pre <= p;
    assert p[|p| - |post|..] == post;
    assert p[|pre|..|p| - |post|] == body;
    FirstNewlineAfter(x, mid + y);
    assert body == x + (mid + y);
    assert body[|x|..] == mid + y;
    assert body[..|x|] == x;
    assert body[|x| + |mid|..] == y;
  }

  /** Whatever the framed parser accepts was framed from a newline-free `x`. */
  lemma ParseFramedSound(p: string, pre: string, mid: string, post: string, x: string, y: string)
    requires ParseFramed(p, pre, mid, post) == Some((x, y))
    ensures '\n' !in x
    ensures p == pre + x + mid + y + post
  {
  }

  /** A question without a newline and any answer text can be read back from the
      reflection prompt: the model sees both verbatim. */
  lemma ReflectionPromptRoundTrip(question: string, answerText: string)
    requires '\n' !in question
    ensures ParseReflectionPrompt(ReflectionPromptText(question, answerText)) == Some((question, answerText))
  {
    assert AnswerLabel[0] == '\n';
    ParseFramedRoundTrip(QuestionLabel, question, AnswerLabel, answerText, PromptTail);
  }

  /** Whatever the parser accepts is a reflection prompt, built from a question
      without a newline. */
  lemma ReflectionPromptParseSound(p: string, question: string, answerText: string)
    requires ParseReflectionPrompt(p) == Some((question, answerText))
    ensures '\n' !in question
    ensures p == ReflectionPromptText(question, answerText)
  {
  }
}
