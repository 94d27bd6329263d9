/** The chat route's logic after the agent has run: the answer and the
    reflection are both passed through the formatter, and a missing reflection
    counts as the empty text. */
module App {
  import opened Wrappers
  import opened Strings
  import opened Formatter
  import opened Agent
  import opened AgentGraph

  /** The two formatted texts the route embeds in its HTML fragment. */
  datatype Reply = Reply(answer: string, reflection: string)

  /** Raised by the route when the agent's answer is `None`: `None.replace`
      fails with an `AttributeError`. */
  datatype ChatError = AnswerIsNone

  /** Formats the answer and the reflection with the same transformation; an
      absent reflection is formatted as the empty text. */
  function FormatReply(answer: string, reflection: Option<string>): (r: Reply)
    ensures r.answer == Render(answer)
    ensures r.reflection == Render(reflection.GetOr(""))
    ensures reflection.None? ==> r.reflection == ""
    ensures '*' !in r.answer && '\n' !in r.answer
    ensures '*' !in r.reflection && '\n' !in r.reflection
  {
    FormatMatchesRender(answer);
    FormatMatchesRender(reflection.GetOr(""));
    Reply(Format(answer), Format(reflection.GetOr("")))
  }

  /** The route's handling of one message: run the agent, then format. */
  function Chat(msg: string, svc: Services): (r: Result<Reply, ChatError>)
    ensures r.Failure? <==> RunAgent(msg, svc).answer.None?
    ensures r.Success? ==>
      r.value.answer == Render(RunAgent(msg, svc).answer.value)
      && r.value.reflection == Render(svc.llm(ReflectionPromptText(msg, RunAgent(msg, svc).answer.value)))
    ensures !MentionsKeyword(msg) ==>
      r == Success(Reply(Render(svc.llm(msg)), Render(svc.llm(ReflectionPromptText(msg, svc.llm(msg))))))
  {
    var result := RunAgent(msg, svc);
    match result.answer
    case None => Failure(AnswerIsNone)
    case Some(answer) => Success(FormatReply(answer, result.reflection))
  }
}
