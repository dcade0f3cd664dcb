/**
  Prompt assembly: the earlier turns of the conversation are written out as a
  labelled transcript ("**Client**" for the user, "**Hayek**" for the
  consultant), the new message is appended with a cue for the next reply, and
  the fixed persona instruction is put in front of the whole.
 */
module PromptAssembly {

  import opened PyStr

  /** One exchange of the conversation: what the client wrote and what the
      consultant answered. */
  datatype Turn = Turn(human: string, assistant: string)

  /** The persona instruction that opens every request. Only its opening
      sentence is reproduced; nothing below depends on its wording. */
  const Persona: string :=
    "You are Hayek, a Professional LinkedIn Promoter & Career Growth Consultant."

  /** The transcript block written for one earlier turn. */
  function Block(t: Turn): string {
    "**Client**: " + t.human + "\n\n**Hayek**: " + t.assistant + "\n\n"
  }

  /** The closing cue: the new message, then the consultant's label awaiting
      its reply. */
  function Cue(message: string): string {
    "**Client**: " + message + "\n\n**Hayek**:"
  }

  /** The blocks of all earlier turns, oldest first. */
  function Transcript(history: seq<Turn>): string {
    if history == [] then "" else Block(history[0]) + Transcript(history[1..])
  }

  /** The prompt for `message` after `history`. */
  function Prompt(history: seq<Turn>, message: string): string {
    Transcript(history) + Cue(message)
  }

  /** What is sent to the model: persona, a blank line, then the prompt. */
  function Contents(prompt: string): (c: string)
    ensures |prompt| <= |c| && c[|c| - |prompt|..] == prompt
    ensures |Persona| <= |c| && c[..|Persona|] == Persona
  {
    Persona + "\n\n" + prompt
  }

  /** The transcript of two stretches of history is the transcript of the
      first followed by that of the second: blocks appear in turn order. */
  lemma {:induction false} TranscriptAppend(h1: seq<Turn>, h2: seq<Turn>)
    ensures Transcript(h1 + h2) == Transcript(h1) + Transcript(h2)
  {
    if h1 == [] {
      assert h1 + h2 == h2;
    } else {
      assert (h1 + h2)[1..] == h1[1..] + h2;
      TranscriptAppend(h1[1..], h2);
    }
  }

  /** The transcript ends with the block of the newest turn. */
  lemma TranscriptLast(history: seq<Turn>, t: Turn)
    ensures Transcript(history + [t]) == Transcript(history) + Block(t)
  {
    TranscriptAppend(history, [t]);
    assert [t][1..] == [];
  }

  /** With no history the prompt is the closing cue alone. */
  lemma PromptWithoutHistory(message: string)
    ensures Prompt([], message) == "**Client**: " + message + "\n\n**Hayek**:"
  {
  }

  /** The prompt after a single turn is that turn's block and the cue. */
  lemma PromptAfterOneTurn(t: Turn, message: string)
    ensures Prompt([t], message) == Block(t) + Cue(message)
  {
    assert [t][1..] == [];
    assert Transcript([t]) == Block(t) + "";
    assert Block(t) + "" == Block(t);
  }

  /** Once `reply` to `message` is recorded, the next prompt continues the
      previous one: a space, the reply, a blank line, then the new cue. */
  lemma PromptContinues(history: seq<Turn>, message: string, reply: string, next: string)
    ensures Prompt(history + [Turn(message, reply)], next)
         == Prompt(history, message) + " " + reply + "\n\n" + Cue(next)
  {
    TranscriptLast(history, Turn(message, reply));
  }

  /** The loop of `generate_response` that accumulates the context, followed
      by the prompt f-string. */
  method AssemblePrompt(history: seq<Turn>, message: string) returns (prompt: string)
    ensures prompt == Transcript(history) + Cue(message)
    ensures EndsWith(prompt, Cue(message))
  {
    var context := "";
    for i := 0 to |history|
      invariant context == Transcript(history[..i])
    {
      assert history[..i + 1] == history[..i] + [history[i]];
      TranscriptLast(history[..i], history[i]);
      context := context + Block(history[i]);
    }
    assert history[..|history|] == history;
    prompt := context + "**Client**: " + message + "\n\n**Hayek**:";
  }
}
