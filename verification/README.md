# MedicalBot agent pipeline and reply formatter, in Dafny

This project models the deterministic core of a retrieval-augmented medical
question-answering bot.

- **The agent** (`src/agent_graph.py`). A state record holds `input`, `context`,
  `answer` and `reflection`. Four stages always run in this order:
  - **plan** tags the question `"RETRIEVE"` when one of six clinical keywords is a
    substring of the lower-cased question, and `"NO_RETRIEVE"` otherwise.
  - **retrieve** replaces that tag by the retrieved document texts joined with a
    blank line, or by the sentinel `"No retrieval needed."`.
  - **answer** calls the grounded document chain when the context is non-empty and
    is not the sentinel. Otherwise it calls the plain language model on the bare
    question.
  - **reflect** asks the model to critique the answer, using a fixed prompt.
- **The reply formatter** (`src/app.py`). The chat route passes both the answer and
  the reflection through a chain of four `str.replace` calls. The chain drops `**`,
  turns `*` into a bullet `•`, and turns line breaks into `<br>`. A missing
  reflection is formatted as the empty text.

The vector store, the grounded chain and the language model are uninterpreted
function parameters (`Agent.Services`). Every stage is a pure function on an
immutable `Agent.AgentState`, whose optional fields use `None` for Python's `None`.

Files:
- `wrappers.dfy`: `Option` and `Result`.
- `strings.dfy`: the Python string primitives the code uses. These are ASCII
  `lower`, substring membership, `join`, and `str.replace`, which scans left to
  right without overlapping matches and handles the empty pattern as Python does.
- `formatter.dfy`: the replace chain `Format` and a single-pass reference reading
  `Render`, with the proof that the two agree.
- `agent.dfy`: the state, the constants and the four stages.
- `agent_graph.dfy`: the graph wiring (entry point and edges) and the run that
  follows it.
- `app.dfy`: the chat route's formatting of the agent's result.

Constants and behaviours of the code that the model keeps exactly:
- The code's routing tags are `"RETRIEVE"` and `"NO_RETRIEVE"`.
- Its sentinel is `"No retrieval needed."`.
- Its apology is `"Sorry, I couldn’t find that information."`, with a U+2019
  apostrophe.
- Its grounded answer falls back from `output_text` to `answer`.
- It catches no error from the hosted services.

## Model

| member | source | states |
|---|---|---|
| Agent.Initial | src/agent_graph.py:14-18 | a new state holds the question, and `context`, `answer` and `reflection` are unset |
| Strings.Lower | src/agent_graph.py:47 | the question is lower-cased character by character, keeping its length |
| Strings.Contains | src/agent_graph.py:48 | the left-to-right scan answers `word in query` exactly when the word occurs at some position of the query |
| Agent.NeedsRetrieval | src/agent_graph.py:47-48 | the planner's test holds exactly when some keyword occurs in the lower-cased question |
| Agent.Plan | src/agent_graph.py:45-55 | `context` becomes `"RETRIEVE"` exactly when a keyword occurs in the lower-cased question, otherwise `"NO_RETRIEVE"`; `input`, `answer` and `reflection` are unchanged |
| Agent.KeywordAnywhereRetrieves | src/agent_graph.py:47-53 | a keyword in any ASCII case, with any text before and after it, routes the question to retrieval |
| Agent.PlanRoutesKeywordQuestions | src/agent_graph.py:47-53 | "symptoms" and upper-case "DRUGSTORE" match by substring, so both questions are routed to retrieval |
| Agent.NoKeywordLetters | src/agent_graph.py:47-53 | a question with no letter that lower-cases to d, s or m contains no keyword, so it is tagged `"NO_RETRIEVE"` |
| Agent.PlanSkipsSmallTalk | src/agent_graph.py:47-53 | "How are you?" is tagged `"NO_RETRIEVE"` |
| Agent.PlanIgnoresCase | src/agent_graph.py:47 | questions that lower-case alike get the same tag |
| Agent.Texts | src/agent_graph.py:62 | one text per document, each document's `page_content`, in the order returned |
| Strings.Join | src/agent_graph.py:62 | `sep.join`: zero parts give `""`, and the length is the parts' total plus one separator between each pair of neighbours |
| Strings.JoinSplit | src/agent_graph.py:62 | cutting the list at any point cuts the joined text at a separator, so the parts keep their order |
| Strings.JoinSnoc | src/agent_graph.py:62 | adding a part at the end adds a separator and then that part |
| Strings.JoinEmptyIff | src/agent_graph.py:62 | with a non-empty separator, the join is empty exactly when there are no parts or one empty part |
| Agent.Retrieve | src/agent_graph.py:58-66 | on `"RETRIEVE"`, `context` becomes the retriever's texts for the question joined by `"\n\n"`; on any other value, unset included, it becomes the sentinel; the other fields are unchanged |
| Agent.Get | src/agent_graph.py:83 | `response.get(key)` is the field's value, or `None` when the key is absent |
| Agent.PickAnswer | src/agent_graph.py:83 | the answer is a truthy `output_text`, else the `"answer"` field as stored, else the apology when `"answer"` is absent |
| Agent.PickAnswerCases | src/agent_graph.py:83 | the answer is `None` exactly when `output_text` is falsy and `"answer"` holds `None`; the apology appears only if `"answer"` is absent or one of the fields already holds it |
| Agent.Answer | src/agent_graph.py:69-89 | grounded exactly when `context` is non-empty and not the sentinel, with the chain given (question, context); otherwise the model receives exactly the question; other fields unchanged |
| Agent.Reflect | src/agent_graph.py:92-102 | `reflection` is the model's reply to "Question: " + question + "\n" + "Answer: " + answer + "\n\n" + the fixed instruction; other fields unchanged |
| Agent.ReflectionPromptRoundTrip | src/agent_graph.py:94-99 | for a question without a newline, the question and the answer text can be read back from the reflection prompt |
| Agent.ReflectionPromptParseSound | src/agent_graph.py:94-99 | every text the prompt reader accepts is a reflection prompt built from what it read |
| AgentGraph.Edge | src/agent_graph.py:116-120 | an edge leads to the end exactly from the reflector, and every other edge leads to the stage one position later |
| AgentGraph.Walk | src/agent_graph.py:116-120 | the walk from a node follows the edges one step at a time until it reaches the end |
| AgentGraph.WalkFromEntry | src/agent_graph.py:110-120 | from the entry point the run visits planner, retriever, answer generator and reflector, each once, in that order |
| AgentGraph.RunFromEntry | src/agent_graph.py:106-122 | running the walk from the entry point is reflect after answer after retrieve after plan |
| AgentGraph.RunAgent | src/agent_graph.py:106-122 | after a run: `input` is the question; `reflection` is set; without a keyword the context is the sentinel and the answer is the model's reply to the question; with a keyword the context is the joined texts; the answer comes from the grounded chain exactly when that context is grounded |
| AgentGraph.RunIgnoresInitialFields | src/agent_graph.py:45-102 | the run's result depends only on `input`, because every other field is written before it is read |
| AgentGraph.NoDocumentsAnswersUngrounded | src/agent_graph.py:58-89 | if a keyword question gets zero documents, the context is `""` and the plain model answers the question |
| AgentGraph.SentinelDocumentAnswersUngrounded | src/agent_graph.py:58-89 | if the only retrieved text is the sentinel, the question takes the plain-model path |
| AgentGraph.SeveralDocumentsAnswerGrounded | src/agent_graph.py:58-89 | with two or more documents, a keyword question always takes the grounded path, on the texts joined in order |
| AgentGraph.GroundedExactly | src/agent_graph.py:58-89 | the grounded path is taken exactly when a keyword matches, the documents are not none or a single empty one, and their join is not the sentinel |
| Strings.Replace | src/app.py:36-41 | `str.replace` adds no character that is in neither the text nor the replacement; a one-character pattern absent from the replacement is gone from the result; text with no occurrence is unchanged |
| Formatter.Format | src/app.py:36-41 | after formatting, no `*` and no newline remain, and text with neither is returned unchanged |
| Formatter.NewlinePairsAreSingleBreaks | src/app.py:39-40 | replacing `\n\n` by `<br><br>` and then `\n` by `<br>` is the same as replacing each newline by one `<br>` |
| Formatter.FormatMatchesRender | src/app.py:36-41 | the four-step chain equals a single left-to-right pass: `**` vanishes, a lone `*` becomes a bullet, each newline becomes one `<br>`, anything else is copied |
| Formatter.FormatIdempotent | src/app.py:36-48 | formatting twice is the same as formatting once |
| Formatter.FormatIdentityOnClean | src/app.py:36-41 | text with no `*` and no newline passes through unchanged |
| App.FormatReply | src/app.py:33-48 | answer and reflection go through the same transformation; a missing reflection becomes `""`; neither output holds `*` or a newline |
| App.Chat | src/app.py:27-48 | the route fails exactly when the agent's answer is `None`; otherwise it returns the formatted answer and reflection, and a question without a keyword gives the formatted plain-model reply and its critique |

## Left out

- Module-level setup in `src/agent_graph.py` is left out: loading `.env`, writing the environment, downloading embeddings, and building the Pinecone index, the retriever and the Gemini client. These are I/O and hosted services. They are replaced by the `Agent.Services` parameters.
- Agent.Services: the grounded chain's response is assumed to be a mapping from field names to values. This follows the shape the code reads with `response.get(...)` at `src/agent_graph.py:83`. The library's `create_stuff_documents_chain` is documented to return plain text, and it takes a list of documents where `src/agent_graph.py:81` passes a string. Read against the library, the grounded branch would raise before the fallback at line 83 runs. What `Agent.PickAnswer` and `Agent.PickAnswerCases` state therefore holds only under the mapping assumption.
- The framework internals are left out: the LangGraph `StateGraph` compiler, `ChatPromptTemplate` and `create_stuff_documents_chain`. The grounded chain is an uninterpreted function of (question, context) that returns response fields. Its prompt text comes from `src/prompt.py`, which is not part of this model.
- The behaviour of the retriever and the language model is not modelled. That covers similarity ranking, `k = 3` and temperature 0.3.
- The model's reply object is a plain string. The `hasattr(response, "content")` / `str(response)` fallback is not modelled, because it depends on the client library's object shape.
- Strings.Lower: lower-cases ASCII letters only. Python's `str.lower` is Unicode-aware. Every keyword is ASCII lower-case, so only non-ASCII capitals are affected.
- Response values are modelled as optional strings. A non-string value's Python truthiness is not modelled.
- The Flask app is left out: the routes, the `print`, template rendering and the HTML wrapper around the two formatted texts. This is HTTP and UI plumbing.
- Service failures are left out. No stage catches exceptions from the hosted services and the code defines no error kinds, timeouts or retries. The only modelled failure is the route's `AttributeError` on a `None` answer.
