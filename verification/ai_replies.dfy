/**
 What the bot makes of a language model's reply once the network call is
 over: the challenge draft of `generate_ai_challenge` (`ai_integration.py`,
 lines 63-87) and the grade of `get_ai_score` (lines 130-145).

 The call to the model and `json.loads` are outside the model: the call's
 outcome is an input, and the parser is a function parameter. Python's
 `(value, error)` pairs become datatypes.
 */
module AiReplies {
  import opened Whitespace
  import opened Fences
  import opened Json

  /**
   The pair returned by the call to the model: `Reply(content)` is
   `(content, None)` and `CallFailed(message)` is `(None, message)`.
   */
  datatype CallResult = Reply(content: string) | CallFailed(message: string)

  /**
   What `json.loads` does with a cleaned reply: a value, a `JSONDecodeError`,
   or any other exception (a `RecursionError` on deep nesting, say), carried
   with the text `str(e)` of that exception.
   */
  datatype ParseResult = Parsed(value: Value) | DecodeError | ParseFailed(message: string)

  /**
   A challenge draft: `Drafted(title, description)` is the `(titulo,
   descricao)` pair, either of which is `None` when the key is missing;
   `Rejected(reason)` is the `(None, reason)` error pair.
   */
  datatype Draft = Drafted(title: Value, description: Value) | Rejected(reason: string)

  /**
   The Python pair a draft is returned as. The tag is not part of it: a
   rejection and a draft without a title whose description is a text give
   pairs of the same shape.
   */
  function AsPair(d: Draft): (p: (Value, Value))
    ensures p.0 != Null <==> d.Drafted? && d.title != Null
    ensures d.Drafted? ==> p.0 == d.title
    ensures d.Rejected? ==> p.1 == Str(d.reason)
    ensures d.Drafted? ==> p.1 == d.description
  {
    match d
    case Drafted(title, description) => (title, description)
    case Rejected(reason) => (Null, Str(reason))
  }

  /** The `(nota, justificativa)` pair of a grading; error paths put a `str` in the second place. */
  datatype Assessment = Assessment(grade: Value, justification: Value)

  const EmptyReplyMessage: string := "A IA retornou uma resposta vazia após a limpeza."
  const InvalidFormatMessage: string := "A IA retornou um formato de texto inválido."
  const NoJustificationMessage: string := "Nenhuma justificativa fornecida."

  /** The grade used when the model's object has no "nota" and on every error path. */
  const DefaultGrade: Value := Int(0)

  /** The text of the generic `except Exception as e` branch, for an exception whose `str(e)` is `detail`. */
  function ErrorMessage(detail: string): string {
    "Erro: " + detail
  }

  /** `ErrorMessage` for the `AttributeError` of an attribute missing on a value of the named type. */
  function MissingAttributeMessage(typeName: string, attribute: string): string {
    ErrorMessage("'" + typeName + "' object has no attribute '" + attribute + "'")
  }

  /**
   The message of a failed call whose error text is empty: Python treats the
   empty text as no error and then calls `.strip()` on the missing content.
   */
  const NoContentMessage: string := MissingAttributeMessage("NoneType", "strip")

  /** The reply decoded to a JSON object with these fields (after clean-up). */
  predicate DecodesToObject(call: CallResult, parse: string -> ParseResult) {
    call.Reply? && parse(CleanFences(call.content)).Parsed? && parse(CleanFences(call.content)).value.Object?
  }

  /**
   `generate_ai_challenge` after the call: a failed call passes its message
   on; otherwise the reply is cleaned, an empty cleaned text is rejected
   without being parsed, and a decoded object yields its "titulo" and
   "descricao" entries (`None` when missing). Any other exception, from the
   parser or from `.get` on a value that is no object, becomes "Erro: "
   followed by its text.
   */
  function DraftChallenge(call: CallResult, parse: string -> ParseResult): (d: Draft)
    ensures call.CallFailed? && call.message != "" ==> d == Rejected(call.message)
    ensures call.CallFailed? && call.message == "" ==> d == Rejected(NoContentMessage)
    ensures call.Reply? && CleanFences(call.content) == "" ==> d == Rejected(EmptyReplyMessage)
    ensures call.Reply? && CleanFences(call.content) != "" && parse(CleanFences(call.content)) == DecodeError ==>
              d == Rejected(InvalidFormatMessage)
    ensures call.Reply? && CleanFences(call.content) != "" && parse(CleanFences(call.content)).ParseFailed? ==>
              d == Rejected(ErrorMessage(parse(CleanFences(call.content)).message))
    ensures call.Reply? && CleanFences(call.content) != "" && parse(CleanFences(call.content)).Parsed? &&
            !parse(CleanFences(call.content)).value.Object? ==>
              d == Rejected(MissingAttributeMessage(TypeName(parse(CleanFences(call.content)).value), "get"))
    ensures d.Drafted? <==> DecodesToObject(call, parse) && CleanFences(call.content) != ""
    ensures d.Drafted? ==>
              var fields := parse(CleanFences(call.content)).value.fields;
              && ("titulo" in fields ==> d.title == fields["titulo"])
              && ("titulo" !in fields ==> d.title == Null)
              && ("descricao" in fields ==> d.description == fields["descricao"])
              && ("descricao" !in fields ==> d.description == Null)
  {
    match call
    case CallFailed(message) =>
      if message != "" then Rejected(message) else Rejected(NoContentMessage)
    case Reply(content) => DraftFromCleaned(CleanFences(content), parse)
  }

  /** The part of `generate_ai_challenge` that follows the clean-up. */
  function DraftFromCleaned(text: string, parse: string -> ParseResult): (d: Draft)
    ensures text == "" ==> d == Rejected(EmptyReplyMessage)
    ensures text != "" && parse(text) == DecodeError ==> d == Rejected(InvalidFormatMessage)
    ensures text != "" && parse(text).ParseFailed? ==> d == Rejected(ErrorMessage(parse(text).message))
    ensures text != "" && parse(text).Parsed? && !parse(text).value.Object? ==>
              d == Rejected(MissingAttributeMessage(TypeName(parse(text).value), "get"))
    ensures d.Drafted? <==> text != "" && parse(text).Parsed? && parse(text).value.Object?
    ensures d.Drafted? ==>
              var fields := parse(text).value.fields;
              && ("titulo" in fields ==> d.title == fields["titulo"])
              && ("titulo" !in fields ==> d.title == Null)
              && ("descricao" in fields ==> d.description == fields["descricao"])
              && ("descricao" !in fields ==> d.description == Null)
  {
    if text == "" then Rejected(EmptyReplyMessage)
    else
      match parse(text)
      case DecodeError => Rejected(InvalidFormatMessage)
      case ParseFailed(message) => Rejected(ErrorMessage(message))
      case Parsed(Object(fields)) =>
        Drafted(Get(fields, "titulo", Null), Get(fields, "descricao", Null))
      case Parsed(other) => Rejected(MissingAttributeMessage(TypeName(other), "get"))
  }

  /**
   `get_ai_score` after the call: a failed call scores 0 with its message;
   otherwise the cleaned reply is parsed (there is no empty check here) and a
   decoded object yields its "nota" (default 0) and "justificativa" (default
   message). Any other exception scores 0 with "Erro: " followed by its
   text. The grade is passed on as it came: nothing checks it is an integer
   from 0 to 5.
   */
  function AssessSubmission(call: CallResult, parse: string -> ParseResult): (a: Assessment)
    ensures call.CallFailed? && call.message != "" ==> a == Assessment(DefaultGrade, Str(call.message))
    ensures call.CallFailed? && call.message == "" ==> a == Assessment(DefaultGrade, Str(NoContentMessage))
    ensures call.Reply? && parse(CleanFences(call.content)) == DecodeError ==>
              a == Assessment(DefaultGrade, Str(InvalidFormatMessage))
    ensures call.Reply? && parse(CleanFences(call.content)).ParseFailed? ==>
              a == Assessment(DefaultGrade, Str(ErrorMessage(parse(CleanFences(call.content)).message)))
    ensures call.Reply? && parse(CleanFences(call.content)).Parsed? && !parse(CleanFences(call.content)).value.Object? ==>
              a == Assessment(DefaultGrade, Str(MissingAttributeMessage(TypeName(parse(CleanFences(call.content)).value), "get")))
    ensures !DecodesToObject(call, parse) ==> a.grade == DefaultGrade && a.justification.Str?
    ensures DecodesToObject(call, parse) ==>
              var fields := parse(CleanFences(call.content)).value.fields;
              && ("nota" in fields ==> a.grade == fields["nota"])
              && ("nota" !in fields ==> a.grade == DefaultGrade)
              && ("justificativa" in fields ==> a.justification == fields["justificativa"])
              && ("justificativa" !in fields ==> a.justification == Str(NoJustificationMessage))
  {
    match call
    case CallFailed(message) =>
      if message != "" then Assessment(DefaultGrade, Str(message))
      else Assessment(DefaultGrade, Str(NoContentMessage))
    case Reply(content) => AssessCleaned(CleanFences(content), parse)
  }

  /** The part of `get_ai_score` that follows the clean-up. */
  function AssessCleaned(text: string, parse: string -> ParseResult): (a: Assessment)
    ensures parse(text) == DecodeError ==> a == Assessment(DefaultGrade, Str(InvalidFormatMessage))
    ensures parse(text).ParseFailed? ==> a == Assessment(DefaultGrade, Str(ErrorMessage(parse(text).message)))
    ensures parse(text).Parsed? && !parse(text).value.Object? ==>
              a == Assessment(DefaultGrade, Str(MissingAttributeMessage(TypeName(parse(text).value), "get")))
    ensures !(parse(text).Parsed? && parse(text).value.Object?) ==> a.grade == DefaultGrade && a.justification.Str?
    ensures parse(text).Parsed? && parse(text).value.Object? ==>
              var fields := parse(text).value.fields;
              && ("nota" in fields ==> a.grade == fields["nota"])
              && ("nota" !in fields ==> a.grade == DefaultGrade)
              && ("justificativa" in fields ==> a.justification == fields["justificativa"])
              && ("justificativa" !in fields ==> a.justification == Str(NoJustificationMessage))
  {
    match parse(text)
    case DecodeError => Assessment(DefaultGrade, Str(InvalidFormatMessage))
    case ParseFailed(message) => Assessment(DefaultGrade, Str(ErrorMessage(message)))
    case Parsed(Object(fields)) =>
      Assessment(Get(fields, "nota", DefaultGrade), Get(fields, "justificativa", Str(NoJustificationMessage)))
    case Parsed(other) =>
      Assessment(DefaultGrade, Str(MissingAttributeMessage(TypeName(other), "get")))
  }

  /**
   A reply that is an empty "```json```" block, with any whitespace around
   it, is rejected as empty whatever the parser would have said: it is never
   parsed.
   */
  lemma DraftRejectsEmptyBlock(pre: string, post: string, parse: string -> ParseResult)
    requires AllSpace(pre) && AllSpace(post)
    ensures DraftChallenge(Reply(pre + JsonFence + Fence + post), parse) == Rejected(EmptyReplyMessage)
  {
    CleanFencesUnwrapsBlock(pre, "", post);
    assert pre + JsonFence + "" + Fence + post == pre + JsonFence + Fence + post;
  }

  /**
   A reply made of whitespace only is rejected as empty, whatever the parser
   would have said.
   */
  lemma DraftRejectsBlankReply(content: string, parse: string -> ParseResult)
    requires AllSpace(content)
    ensures DraftChallenge(Reply(content), parse) == Rejected(EmptyReplyMessage)
  {
    StripEmptyIffBlank(content);
    assert CleanFences(content) == "";
  }

  /**
   Grading has no empty check: an empty "```json```" block reaches the parser
   as the empty text, and a parser that rejects the empty text, as
   `json.loads` does, yields the invalid-format message and grade 0.
   */
  lemma AssessmentOfEmptyBlock(pre: string, post: string, parse: string -> ParseResult)
    requires AllSpace(pre) && AllSpace(post)
    requires parse("") == DecodeError
    ensures AssessSubmission(Reply(pre + JsonFence + Fence + post), parse) == Assessment(DefaultGrade, Str(InvalidFormatMessage))
  {
    CleanFencesUnwrapsBlock(pre, "", post);
    assert pre + JsonFence + "" + Fence + post == pre + JsonFence + Fence + post;
  }

  /**
   Wrapping a bare payload in a "```json" block, with whitespace around it,
   changes nothing about the draft: the parser sees the same text.
   */
  lemma DraftIgnoresFencing(pre: string, x: string, post: string, parse: string -> ParseResult)
    requires AllSpace(pre) && AllSpace(post)
    requires NoBackticks(x) && IsStripped(x)
    ensures DraftChallenge(Reply(pre + JsonFence + x + Fence + post), parse) == DraftChallenge(Reply(x), parse)
  {
    CleanFencesUnwrapsBlock(pre, x, post);
    CleanFencesPassThrough(x);
    assert DraftChallenge(Reply(pre + JsonFence + x + Fence + post), parse) == DraftFromCleaned(x, parse);
  }

  /** The same holds for grading. */
  lemma AssessmentIgnoresFencing(pre: string, x: string, post: string, parse: string -> ParseResult)
    requires AllSpace(pre) && AllSpace(post)
    requires NoBackticks(x) && IsStripped(x)
    ensures AssessSubmission(Reply(pre + JsonFence + x + Fence + post), parse) == AssessSubmission(Reply(x), parse)
  {
    CleanFencesUnwrapsBlock(pre, x, post);
    CleanFencesPassThrough(x);
    assert AssessSubmission(Reply(pre + JsonFence + x + Fence + post), parse) == AssessCleaned(x, parse);
  }

  /**
   No clamp: whatever integer the model puts in "nota", negative or far above
   5, is the grade.
   */
  lemma AssessmentKeepsAnyGrade(x: string, n: int, parse: string -> ParseResult)
    requires NoBackticks(x) && IsStripped(x)
    requires parse(x) == Parsed(Object(map["nota" := Int(n)]))
    ensures AssessSubmission(Reply(x), parse) == Assessment(Int(n), Str(NoJustificationMessage))
  {
    CleanFencesPassThrough(x);
  }

    /**
   Exactly when a draft's pair is a rejection's: the draft has no title and
   its description is the rejection's reason as a text.
   */
  lemma DraftLooksRejectedIff(title: Value, description: Value, reason: string)
    ensures AsPair(Drafted(title, description)) == AsPair(Rejected(reason))
        <==> title == Null && description == Str(reason)
  {
  }

/**
   A caller of `generate_ai_challenge` cannot tell a decoded object without
   "titulo" from a rejection: an object whose only entry is "descricao"
   holding a text `m` is drafted, yet comes back as the same pair
   `(None, m)` as a rejection with reason `m`.
   */
  lemma TitlelessDraftLooksRejected(x: string, m: string, parse: string -> ParseResult)
    requires NoBackticks(x) && IsStripped(x) && x != ""
    requires parse(x) == Parsed(Object(map["descricao" := Str(m)]))
    ensures DraftChallenge(Reply(x), parse).Drafted?
    ensures AsPair(DraftChallenge(Reply(x), parse)) == AsPair(Rejected(m))
  {
    CleanFencesPassThrough(x);
  }

  /**
   An object with neither key (English keys, say) is drafted as the pair
   `(None, None)`: the error shape, with no message.
   */
  lemma KeylessDraftIsNoneNone(x: string, parse: string -> ParseResult)
    requires NoBackticks(x) && IsStripped(x) && x != ""
    requires parse(x) == Parsed(Object(map["title" := Str("t"), "description" := Str("d")]))
    ensures DraftChallenge(Reply(x), parse).Drafted?
    ensures AsPair(DraftChallenge(Reply(x), parse)) == (Null, Null)
  {
    CleanFencesPassThrough(x);
  }
}
