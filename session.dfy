/**
  The conversation as the chat page keeps it: submitting a message (the
  `submit_message` handler), undoing the last exchange and clearing the
  session (the two button handlers). The history is a value that each
  handler replaces, as the page's chatbot component does.
 */
module Session {

  import opened Optional
  import opened PyStr
  import opened PromptAssembly
  import opened Consultant

  /** The text the clear button puts into the message box. */
  const Greeting: string :=
    "\U{1F680} New consultation session started! What LinkedIn challenge can I help you solve today?"

  /** The values the clear button writes: the chatbot's history, set to
      `None`, and the message box's text. */
  datatype ClearOutput = ClearOutput(chatbot: Option<seq<Turn>>, textbox: string)

  /** `submit_message(message, history)`: returns the new text of the message
      box and the new history. A missing or blank message changes nothing and
      the model is not called; otherwise exactly one turn is appended, holding
      the message as typed (not stripped) and the reply of `generate_response`.
      `sent` is the request handed to the model, if any. */
  method Submit(message: Option<string>, history: seq<Turn>, apiKey: Option<string>,
                call: ModelRequest -> ModelReply)
    returns (echo: string, updated: seq<Turn>, sent: Option<ModelRequest>)
    ensures echo == ""
    ensures message.None? || IsBlank(message.value) ==> updated == history && sent == None
    ensures message.Some? && !IsBlank(message.value) ==> sent == Request(message.value, history, apiKey)
    ensures message.Some? && !IsBlank(message.value) ==>
              && |updated| == |history| + 1
              && updated[..|history|] == history
              && updated[|history|] == Turn(message.value, Response(message.value, history, apiKey, call))
  {
    if message.None? || |Strip(message.value)| == 0 {
      return "", history, None;
    }
    var response;
    response, sent := GenerateResponse(message.value, history, apiKey, call);
    updated := history + [Turn(message.value, response)];
    echo := "";
  }

  /** The undo button: drop the last turn, if there is one. The result is a
      prefix of the history, one turn shorter unless the history was empty. */
  function Undo(history: seq<Turn>): (r: seq<Turn>)
    ensures r <= history
    ensures |history| > 0 ==> |r| == |history| - 1 && history == r + [history[|history| - 1]]
    ensures |history| == 0 ==> r == []
  {
    if |history| > 0 then history[..|history| - 1] else history
  }

  /** Undo takes back exactly the turn a submission appended. */
  lemma UndoAfterSubmit(history: seq<Turn>, t: Turn)
    ensures Undo(history + [t]) == history
  {
  }

  /** The clear button: the chatbot is emptied and the greeting is put into
      the message box. */
  function Clear(): (out: ClearOutput)
    ensures out.chatbot == None
    ensures out.textbox == Greeting && !IsBlank(out.textbox)
  {
    var out := ClearOutput(None, Greeting);
    assert Greeting[|Greeting| - 1] == '?';
    BlankIffAllSpace(Greeting);
    out
  }

  /** The conversation the chatbot shows for a value written to it: `None`
      shows as the empty conversation. */
  function Shown(chatbot: Option<seq<Turn>>): seq<Turn> {
    if chatbot.Some? then chatbot.value else []
  }

  /** After clearing, the conversation is empty, undo has nothing to take
      back, and the greeting left in the message box is a message that a
      submission would accept. */
  lemma ClearStartsOver()
    ensures Shown(Clear().chatbot) == []
    ensures Undo(Shown(Clear().chatbot)) == []
    ensures !IsBlank(Clear().textbox)
  {
  }
}
