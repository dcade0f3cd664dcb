/**
  `generate_response`: the guards on the message and the API key, the call to
  the hosted model and the handling of its outcome. The model call is a
  parameter, `call`, that answers a request with a reply text or a failure.
 */
module Consultant {

  import opened Optional
  import opened PyStr
  import opened PromptAssembly
  import opened ResponseNormalizer

  /** The model the consultant asks. */
  const ModelId: string := "gemini-2.5-flash"

  /** The reply to a message that is blank once stripped. */
  const EmptyMessageReply: string := "Please enter a message."

  /** The opening shared by both error texts. */
  const ErrorTag: string := "\U{274C} **Error**: "

  /** The reply when no API key is configured. */
  const MissingKeyReply: string :=
    ErrorTag + "Please set your GOOGLE_API_KEY environment variable."

  /** The fixed opening of the reply when the model call fails. */
  const ConnectionErrorPrefix: string :=
    ErrorTag + "Could not connect to Gemini API. Please check your API key and internet connection.\n\n**Details**: "

  /** A request to the hosted model: the key the client is built with, the
      model name and the contents. */
  datatype ModelRequest = ModelRequest(apiKey: string, model: string, contents: string)

  /** What the model call produces: the text of the response, or a failure
      with its description (the text of the exception). */
  datatype ModelReply = Reply(text: string) | CallFailed(details: string)

  /** `not message.strip()`. */
  predicate IsBlank(message: string) {
    Strip(message) == ""
  }

  /** `not api_key`: the variable is unset or empty. */
  predicate KeyMissing(apiKey: Option<string>) {
    apiKey.None? || apiKey.value == ""
  }

  /** The user-visible text for a failed model call. */
  function ConnectionError(details: string): (r: string)
    ensures |r| == |ConnectionErrorPrefix| + |details|
    ensures r[..|ConnectionErrorPrefix|] == ConnectionErrorPrefix
    ensures r[|ConnectionErrorPrefix|..] == details
  {
    ConnectionErrorPrefix + details
  }

  /** The request `generate_response` sends, if it gets that far. */
  function Request(message: string, history: seq<Turn>, apiKey: Option<string>): Option<ModelRequest> {
    if IsBlank(message) || KeyMissing(apiKey) then None
    else Some(ModelRequest(apiKey.value, ModelId, Contents(Prompt(history, message))))
  }

  /** The reply text made from the model's outcome: a response is normalized,
      a failure becomes the error text, which skips the normalizer. */
  function Outcome(reply: ModelReply): string {
    match reply
    case Reply(text) => Normalize(text)
    case CallFailed(details) => ConnectionError(details)
  }

  /** What `generate_response(message, history)` returns. */
  function Response(message: string, history: seq<Turn>, apiKey: Option<string>,
                    call: ModelRequest -> ModelReply): string
  {
    if IsBlank(message) then EmptyMessageReply
    else if KeyMissing(apiKey) then MissingKeyReply
    else Outcome(call(Request(message, history, apiKey).value))
  }

  /** `generate_response`. `sent` is the request handed to the model, or
      `None` when the model is not called. */
  method GenerateResponse(message: string, history: seq<Turn>, apiKey: Option<string>,
                          call: ModelRequest -> ModelReply)
    returns (response: string, sent: Option<ModelRequest>)
    ensures IsBlank(message) ==> response == EmptyMessageReply && sent == None
    ensures !IsBlank(message) && KeyMissing(apiKey) ==> response == MissingKeyReply && sent == None
    ensures !IsBlank(message) && !KeyMissing(apiKey) ==>
              && sent == Some(ModelRequest(apiKey.value, ModelId, Contents(Prompt(history, message))))
              && response == Outcome(call(sent.value))
    ensures sent == Request(message, history, apiKey)
    ensures response == Response(message, history, apiKey, call)
  {
    if IsBlank(message) {
      return EmptyMessageReply, None;
    }
    if KeyMissing(apiKey) {
      return MissingKeyReply, None;
    }
    var prompt := AssemblePrompt(history, message);
    var request := ModelRequest(apiKey.value, ModelId, Contents(prompt));
    sent := Some(request);
    match call(request) {
      case CallFailed(details) =>
        response := ConnectionError(details);
      case Reply(text) =>
        response := NormalizeResponse(text);
    }
  }

  /** When a guard answers, the reply does not depend on the model at all. */
  lemma GuardedReplyIgnoresModel(message: string, history: seq<Turn>, apiKey: Option<string>,
                                 call1: ModelRequest -> ModelReply, call2: ModelRequest -> ModelReply)
    requires IsBlank(message) || KeyMissing(apiKey)
    ensures Request(message, history, apiKey) == None
    ensures Response(message, history, apiKey, call1) == Response(message, history, apiKey, call2)
  {
  }

  /** The contents of every request end with the prompt, which ends with the
      cue for the new message. */
  lemma RequestEndsWithPrompt(message: string, history: seq<Turn>, apiKey: Option<string>)
    requires Request(message, history, apiKey).Some?
    ensures var c := Request(message, history, apiKey).value.contents;
            && EndsWith(c, Prompt(history, message))
            && EndsWith(c, Cue(message))
  {
  }

  /** The error text already carries markers, so normalizing it would change
      nothing: whether or not the failure path went through the normalizer,
      the reply is the same. */
  lemma ConnectionErrorIsNormal(details: string)
    ensures Normalize(ConnectionError(details)) == ConnectionError(details)
  {
    var r := ConnectionError(details);
    assert ErrorTag[2] == '*' && ErrorTag[3] == '*';
    assert r[2..4] == "**";
    OccursContains(r, "**", 2);
    assert Markers[0] == "**";
  }

  /** The same holds of the missing-key text. */
  lemma MissingKeyReplyIsNormal()
    ensures Normalize(MissingKeyReply) == MissingKeyReply
  {
    assert ErrorTag[2] == '*' && ErrorTag[3] == '*';
    assert MissingKeyReply[2..4] == "**";
    OccursContains(MissingKeyReply, "**", 2);
    assert Markers[0] == "**";
  }
}
