/**
 * Building the Messages request for a text and reading the translation
 * out of the reply, with the shapes of the provider client's request and
 * response structures. Transport and JSON encoding are not modelled: the
 * provider is a function from request to response or error.
 */
module Translate {
  import opened Wrappers

  /**
   * A decoded JSON value, as Go's `interface{}` holds it after decoding.
   * Numbers decode to `float64`; here they are reals, with no rounding,
   * and the bot never reads one.
   */
  datatype Json =
    | JNull
    | JBool(b: bool)
    | JNumber(n: real)
    | JString(s: string)
    | JArray(items: seq<Json>)
    | JObject(fields: map<string, Json>)

  datatype Message = Message(role: string, content: seq<Json>)

  datatype MessageRequest = MessageRequest(
    model: string,
    messages: seq<Message>,
    maxTokens: int,
    stream: bool,
    system: string)

  datatype Usage = Usage(inputTokens: int, outputTokens: int)

  datatype MessageResponse = MessageResponse(
    id: string,
    kind: string,
    role: string,
    content: seq<Json>,
    model: string,
    stopReason: string,
    usage: Usage)

  /** The client's transport: a request, answered by a response or an error text. */
  type Provider = MessageRequest -> Result<MessageResponse, string>

  const ApiModel: string := "claude-3-haiku-20240307"

  /** `{"type": "text", "text": text}`, a text content block. */
  function TextBlock(text: string): Json {
    JObject(map["type" := JString("text"), "text" := JString(text)])
  }

  /** The text the request asks to translate: that of its one user message's one text block. */
  function RequestText(req: MessageRequest): (r: Option<string>)
    ensures r.Some? ==> |req.messages| == 1 && req.messages[0].role == "user"
                        && req.messages[0].content == [TextBlock(r.value)]
  {
    if |req.messages| == 1 && req.messages[0].role == "user" && |req.messages[0].content| == 1
       && req.messages[0].content[0].JObject?
    then
      var fields := req.messages[0].content[0].fields;
      if fields.Keys == {"type", "text"} && fields["type"] == JString("text") && fields["text"].JString?
      then
        assert fields == map["type" := JString("text"), "text" := JString(fields["text"].s)];
        Some(fields["text"].s)
      else None
    else None
  }

  /**
   * The request `translateMessage` sends: the fixed model, `system` the
   * instruction text, and a single user message whose one text block
   * carries `text`; the token budget is the text's length in runes.
   */
  function BuildRequest(system: string, text: string): (req: MessageRequest)
    ensures RequestText(req) == Some(text)
    ensures req.maxTokens == |text| && req.model == ApiModel && req.system == system && !req.stream
  {
    MessageRequest(ApiModel, [Message("user", [TextBlock(text)])], |text|, false, system)
  }

  /** What reading the first content block yields. */
  datatype BlockText = NoBlocks | FirstText(text: string) | NotText

  /**
   * `resp.Content[0].(map[string]interface{})["text"].(string)`: the
   * `text` member of the first block. A first block that is not an
   * object, has no `text`, or whose `text` is not a string makes the
   * unchecked type assertions fail.
   */
  function FirstBlockText(content: seq<Json>): (r: BlockText)
    ensures r == NoBlocks <==> |content| == 0
    ensures r.FirstText? <==> |content| >= 1 && content[0].JObject? && "text" in content[0].fields
                               && content[0].fields["text"].JString?
    ensures r.FirstText? ==> content[0].fields["text"] == JString(r.text)
  {
    if |content| == 0 then NoBlocks
    else match content[0]
      case JObject(fields) =>
        if "text" in fields && fields["text"].JString? then FirstText(fields["text"].s) else NotText
      case _ => NotText
  }

  /** A reply whose first block is a text block reads back as that block's text, whatever follows. */
  lemma TextBlockReadsBack(text: string, rest: seq<Json>)
    ensures FirstBlockText([TextBlock(text)] + rest) == FirstText(text)
  {
    assert ([TextBlock(text)] + rest)[0] == TextBlock(text);
  }

  /** The outcome of `translateMessage`. */
  datatype Translation =
    | Translated(text: string)
    | Failed(reason: string)
    /** A failed type assertion: Go panics. */
    | Panicked

  const EmptyResponseError: string := "empty response from Anthropic API"

  /** `translateMessage`: call the provider, then take the first content block's text. */
  function TranslateText(provider: Provider, system: string, text: string): (t: Translation)
    ensures t.Translated? <==>
              var resp := provider(BuildRequest(system, text));
              resp.Ok? && FirstBlockText(resp.value.content).FirstText?
    ensures t.Translated? ==> t.text == FirstBlockText(provider(BuildRequest(system, text)).value.content).text
    ensures t.Panicked? <==>
              var resp := provider(BuildRequest(system, text));
              resp.Ok? && FirstBlockText(resp.value.content).NotText?
  {
    match provider(BuildRequest(system, text))
    case Err(e) => Failed("error calling Anthropic API: " + e)
    case Ok(resp) =>
      match FirstBlockText(resp.content)
      case NoBlocks => Failed(EmptyResponseError)
      case NotText => Panicked
      case FirstText(reply) => Translated(reply)
  }

  /** A transport error is reported as a failure, never as a reply. */
  lemma ProviderErrorFails(provider: Provider, system: string, text: string)
    requires provider(BuildRequest(system, text)).Err?
    ensures TranslateText(provider, system, text).Failed?
  {
  }

  /** A reply with no content blocks is the "empty response" failure. */
  lemma EmptyReplyFails(provider: Provider, system: string, text: string)
    requires provider(BuildRequest(system, text)).Ok?
    requires provider(BuildRequest(system, text)).value.content == []
    ensures TranslateText(provider, system, text) == Failed(EmptyResponseError)
  {
  }

  /** A reply that opens with a text block translates to that block's text. */
  lemma TextReplyTranslates(provider: Provider, system: string, text: string, reply: string, rest: seq<Json>)
    requires provider(BuildRequest(system, text)).Ok?
    requires provider(BuildRequest(system, text)).value.content == [TextBlock(reply)] + rest
    ensures TranslateText(provider, system, text) == Translated(reply)
  {
    TextBlockReadsBack(reply, rest);
  }
}
