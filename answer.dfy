/** `query_ai_model`: the request sent to the chat-completion endpoint, and
    how its reply, or the failure of the request, becomes the answer text. */
module AnswerGenerator {
  import opened PyText

  const SystemInstruction: string := "You are an AI assistant answering questions about a project synopsis."
  const ContextLead: string := "Based on this project synopsis: "
  const QuestionLead: string := ", answer the question: "
  const Temperature: real := 0.7
  const TopP: real := 0.95
  const MaxTokens: nat := 800
  /** The fallback when the reply carries no message content. */
  const NoAnswer: string := "No answer found."
  const ErrorLead: string := "Error while querying the AI: "

  datatype Message = Message(role: string, content: string)

  /** The JSON payload of the POST. */
  datatype Request = Request(messages: seq<Message>, temperature: real, topP: real, maxTokens: nat)

  /** What the POST comes back with: a reply whose first choice has message
      content, a reply without it, or a `RequestException` (transport
      failure, an HTTP error status, a body that is not JSON) with its text. */
  datatype Reply = Completion(content: string) | NoContent | RequestFailed(error: string)

  function UserPrompt(question: string, chunk: string): string {
    ContextLead + chunk + QuestionLead + question
  }

  function BuildRequest(question: string, chunk: string): Request {
    Request([Message("system", SystemInstruction), Message("user", UserPrompt(question, chunk))],
            Temperature, TopP, MaxTokens)
  }

  /** The payload carries the fixed sampling settings and the system
      instruction, and the user message carries the chunk and the question
      verbatim: the chunk right after the fixed lead, the question at the
      very end. */
  lemma PromptCarriesInputs(question: string, chunk: string)
    ensures var req := BuildRequest(question, chunk);
      && req.temperature == 0.7 && req.topP == 0.95 && req.maxTokens == 800
      && var m := req.messages;
      && |m| == 2 && m[0] == Message("system", SystemInstruction) && m[1].role == "user"
      && var p := m[1].content;
      && |p| == |ContextLead| + |chunk| + |QuestionLead| + |question|
      && p[..|ContextLead|] == ContextLead
      && p[|ContextLead|..|ContextLead| + |chunk|] == chunk
      && p[|p| - |question|..] == question
  {
    var p := UserPrompt(question, chunk);
    assert p == ContextLead + (chunk + (QuestionLead + question));
    assert (chunk + (QuestionLead + question))[..|chunk|] == chunk;
  }

  /** The error text cut down to at most its first two colon-separated
      segments, put back together with the colon between them. */
  function TruncateError(e: string): string {
    var parts := Split(e, ':');
    Join(':', parts[..if |parts| < 2 then |parts| else 2])
  }

  /** The truncated text is a prefix of the error with at most one colon.
      An error with at most one colon is kept whole; otherwise the cut falls
      exactly before the second colon. */
  lemma TruncateErrorSpec(e: string)
    ensures var r := TruncateError(e);
      && r <= e
      && Count(r, ':') <= 1
      && (Count(e, ':') <= 1 ==> r == e)
      && (Count(e, ':') >= 2 ==> Count(r, ':') == 1 && r + ":" <= e)
  {
    var parts := Split(e, ':');
    SplitPieces(e, ':');
    JoinSplit(e, ':');
    if |parts| <= 2 {
      assert parts[..|parts|] == parts;
    } else {
      JoinAfterSecond(':', parts);
      var r := Join(':', parts[..2]);
      assert e == r + ":" + Join(':', parts[2..]);
      JoinTwoCount(parts[0], parts[1], ':');
    }
  }

  /** A join of three or more pieces is the join of the first two, a
      separator, and the join of the rest. */
  lemma JoinAfterSecond(sep: char, parts: seq<string>)
    requires |parts| >= 3
    ensures Join(sep, parts) == Join(sep, parts[..2]) + [sep] + Join(sep, parts[2..])
  {
    var p0, p1, rest := parts[0], parts[1], parts[2..];
    assert parts[1..][1..] == rest;
    assert Join(sep, parts[1..]) == p1 + [sep] + Join(sep, rest);
    assert parts[..2] == [p0, p1] && [p0, p1][1..] == [p1];
  }

  /** Two separator-free pieces joined hold exactly one separator. */
  lemma JoinTwoCount(a: string, b: string, sep: char)
    requires sep !in a && sep !in b
    ensures Count(Join(sep, [a, b]), sep) == 1
  {
    assert [a, b][1..] == [b];
    assert multiset(a + [sep] + b) == multiset(a) + multiset{sep} + multiset(b);
  }

  /** `query_ai_model(question, relevant_chunk)`, with `post` standing for
      the endpoint: it receives the request built from the question and the
      chunk. */
  function QueryAiModel(question: string, chunk: string, post: Request -> Reply): string {
    match post(BuildRequest(question, chunk))
    case Completion(content) => content
    case NoContent => NoAnswer
    case RequestFailed(e) => ErrorLead + TruncateError(e)
  }

  /** The answer is the reply's content, the fallback text, or the error
      lead followed by the error text cut just before its second colon (or
      kept whole when it has fewer): the caller receives a string in every
      case and never an exception. */
  lemma AnswerOutcomes(question: string, chunk: string, post: Request -> Reply)
    ensures var a := QueryAiModel(question, chunk, post);
      match post(BuildRequest(question, chunk))
      case Completion(content) => a == content
      case NoContent => a == NoAnswer
      case RequestFailed(e) =>
        && a[..|ErrorLead|] == ErrorLead
        && a[|ErrorLead|..] <= e
        && Count(a[|ErrorLead|..], ':') <= 1
        && (Count(e, ':') <= 1 ==> a == ErrorLead + e)
        && (Count(e, ':') >= 2 ==> Count(a[|ErrorLead|..], ':') == 1 && a[|ErrorLead|..] + ":" <= e)
  {
    match post(BuildRequest(question, chunk))
    case Completion(_) =>
    case NoContent =>
    case RequestFailed(e) =>
      TruncateErrorSpec(e);
      var a := QueryAiModel(question, chunk, post);
      assert a[|ErrorLead|..] == TruncateError(e);
  }
}
