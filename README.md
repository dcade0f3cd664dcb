# LinkedIn consultant chat: a verified model of its text-and-history core

The consultant is a one-page chat application. Each message goes to a hosted
language model together with the earlier turns of the conversation and a
fixed persona instruction ("Hayek", a LinkedIn growth consultant). The reply
is post-processed to give it some markdown structure, then appended to the
conversation. This project models in Dafny the part of
`linkedin_consultant.py` that computes something and proves properties of it:

- **Python strings** (`pystr.dfy`, module `PyStr`). Covers `str.isspace`, `strip`, `split('\n')`, `'\n'.join`, the `in` operator on strings and `endswith`, written out with Python's semantics. `split` always yields at least one part, and `strip` removes exactly the characters `isspace` accepts.
- **Prompt assembly** (`prompt.dfy`, module `PromptAssembly`). The loop of `generate_response` folds the history into a transcript of `**Client**: …\n\n**Hayek**: …\n\n` blocks. The prompt is that transcript, then the cue `**Client**: <message>\n\n**Hayek**:`. What is sent is the persona, a blank line, then the prompt.
- **Response normalizer** (`normalizer.dfy`, module `ResponseNormalizer`). A reply containing any of `**`, `*`, `#`, `-`, `1.` is kept as it is. Otherwise every line is stripped, a stripped line ending in `:` and shorter than 50 characters is wrapped in `**…**`, and the lines are joined again. The loop is modelled as a method, proved against the function `Normalize`.
- **Request guards and error text** (`consultant.dfy`, module `Consultant`). A blank message and a missing API key each get a fixed reply; a failed model call gets a reply with a fixed prefix that carries the failure's text. The model is a parameter `call` that answers a `ModelRequest` with either a reply text or a failure. `GenerateResponse` reports the request it sent, or `None` when a guard answered first.
- **Session history** (`session.dfy`, module `Session`). `submit_message` appends one turn or nothing. The undo button drops the last turn. The clear button writes `None` to the chatbot and a greeting to the message box.
- `optional.dfy` holds the `Option` type.

Two facts about the code are worth stating because the model follows them exactly:

- **Failed model call.** The failure text is returned straight from the `except` branch (`linkedin_consultant.py:111-112`) and never normalized, so `Consultant.Outcome` does not normalize it. `Consultant.ConnectionErrorIsNormal` proves that normalizing it would change nothing, because the text already contains `**`.
- **Blank message.** `submit_message` checks for a blank message before it calls `generate_response`, and returns `""` with the history unchanged (`linkedin_consultant.py:118-119`). So the "Please enter a message." reply of `generate_response` is unreachable from the chat page, and `Session.Submit` states that no request is sent in that case.

## Model

| member | source | states |
|---|---|---|
| PyStr.StripLeftShape | linkedin_consultant.py:99 | `lstrip` returns the suffix of the line that starts at the first non-whitespace character; everything it removes is whitespace |
| PyStr.StripRightShape | linkedin_consultant.py:99 | `rstrip` returns the prefix that ends at the last non-whitespace character; everything it removes is whitespace |
| PyStr.StripShape | linkedin_consultant.py:99 | `line.strip()` is a contiguous slice of the line that neither starts nor ends with whitespace, and every character outside it is whitespace |
| PyStr.StripFixed | linkedin_consultant.py:99 | a string with no whitespace at either end is its own strip |
| PyStr.StripIdempotent | linkedin_consultant.py:99 | stripping twice is stripping once |
| PyStr.StripAvoids | linkedin_consultant.py:99 | strip introduces no character that was not in its input |
| PyStr.BlankIffAllSpace | linkedin_consultant.py:10 | `not message.strip()` holds exactly when every character of the message is whitespace (both directions) |
| PyStr.Split | linkedin_consultant.py:96 | `split('\n')` always returns at least one part |
| PyStr.SplitPartsFree | linkedin_consultant.py:96 | no part of a split contains the separator |
| PyStr.JoinSplit | linkedin_consultant.py:96-107 | joining the parts of a split with the same separator restores the text |
| PyStr.SplitNoSep | linkedin_consultant.py:96 | a text without the separator splits into itself alone |
| PyStr.SplitAtSep | linkedin_consultant.py:96 | splitting `a + sep + b`, where `a` has no separator, gives `a` followed by the parts of `b` |
| PyStr.SplitJoin | linkedin_consultant.py:96-107 | splitting a join of separator-free parts gives back exactly those parts |
| PyStr.JoinAvoids | linkedin_consultant.py:107 | a character missing from a join is missing from every part |
| PyStr.ContainsIffOccurs | linkedin_consultant.py:94 | `sub in s` holds exactly when `sub` occurs at some index of `s` |
| PyStr.OccursContains | linkedin_consultant.py:94 | an occurrence at an index makes `sub in s` true |
| PyStr.ContainsChar | linkedin_consultant.py:94 | for a one-character marker, `in` is character membership |
| PyStr.ContainsHead | linkedin_consultant.py:94 | a string contains only substrings whose first character it contains |
| PromptAssembly.AssemblePrompt | linkedin_consultant.py:22-28 | the accumulation loop and the f-string produce the transcript of the history, in order, followed by the cue for the new message; the prompt ends with that cue |
| PromptAssembly.TranscriptAppend | linkedin_consultant.py:24-25 | the transcript of two stretches of history is the first's transcript followed by the second's, so blocks appear in turn order |
| PromptAssembly.TranscriptLast | linkedin_consultant.py:24-25 | adding a turn at the end adds exactly its block at the end of the transcript |
| PromptAssembly.PromptWithoutHistory | linkedin_consultant.py:23-28 | with an empty history the prompt is exactly `**Client**: m\n\n**Hayek**:` |
| PromptAssembly.PromptAfterOneTurn | linkedin_consultant.py:23-28 | after one turn the prompt is that turn's block followed by the cue |
| PromptAssembly.PromptContinues | linkedin_consultant.py:22-28 | once a reply is recorded, the next prompt is the previous prompt followed by a space, the reply, a blank line and the new cue |
| PromptAssembly.Contents | linkedin_consultant.py:33-87 | what is sent to the model starts with the persona and ends with the prompt |
| ResponseNormalizer.NormalizeResponse | linkedin_consultant.py:90-109 | the normalizer block, with its line loop, computes `Normalize` of the reply text |
| ResponseNormalizer.MarkedTextUnchanged | linkedin_consultant.py:94 | a reply containing any of the five markers is returned unchanged |
| ResponseNormalizer.NoMarkerWithout | linkedin_consultant.py:94 | a reply with none of the characters `*`, `#`, `-`, `1` contains no marker |
| ResponseNormalizer.NormalizeLines | linkedin_consultant.py:96-107 | without markers, the output split on `\n` is the line rule applied to each input line, so it has exactly as many lines as the input |
| ResponseNormalizer.NormalizeLine | linkedin_consultant.py:96-107 | without markers, output line i is `''` if the stripped input line `s` is empty, `**s**` if `s` ends in `:` and is shorter than 50 characters, and `s` otherwise; it starts with `**` exactly in the bolded case |
| ResponseNormalizer.FormatLineCases | linkedin_consultant.py:99-106 | the same three cases for one star-free line, and the bolded case is exactly the one whose output starts with `**` |
| ResponseNormalizer.LongLineNeverBolded | linkedin_consultant.py:101-104 | a stripped line of 50 characters or more is emitted as it is, whatever it ends in |
| ResponseNormalizer.LineHasNoStar | linkedin_consultant.py:94-99 | in a reply without markers, no stripped line contains a star |
| ResponseNormalizer.FormatLineAvoids | linkedin_consultant.py:99-106 | the line rule adds no character other than the star |
| ResponseNormalizer.FormattedLinesUnbroken | linkedin_consultant.py:96-106 | no formatted line contains a line break |
| ResponseNormalizer.FormatLineIdempotent | linkedin_consultant.py:99-106 | applying the line rule twice is applying it once: a bolded line ends in `*`, so it is not bolded again |
| ResponseNormalizer.NormalizeIdempotent | linkedin_consultant.py:94-107 | normalizing twice is normalizing once, for every reply |
| ResponseNormalizer.NormalizeEmpty | linkedin_consultant.py:94-109 | the empty reply normalizes to the empty string |
| Consultant.ConnectionError | linkedin_consultant.py:111-112 | the failure reply is the fixed error prefix followed by the failure's text |
| Consultant.GenerateResponse | linkedin_consultant.py:6-112 | a blank message gets "Please enter a message." and a missing key gets the fixed error text, and in both cases no request is sent; otherwise exactly one request goes out, carrying the key, `gemini-2.5-flash` and the persona-plus-prompt contents; its reply text is normalized, and a failure becomes the error text with the failure's description |
| Consultant.GuardedReplyIgnoresModel | linkedin_consultant.py:10-16 | when a guard answers, no request is made and the reply is the same whatever the model would have said |
| Consultant.RequestEndsWithPrompt | linkedin_consultant.py:28-87 | every request's contents end with the prompt and with the cue for the new message |
| Consultant.ConnectionErrorIsNormal | linkedin_consultant.py:111-112 | normalizing the failure reply would leave it unchanged, so skipping the normalizer there is harmless |
| Consultant.MissingKeyReplyIsNormal | linkedin_consultant.py:16 | normalizing the missing-key reply would leave it unchanged |
| Session.Submit | linkedin_consultant.py:114-123 | returns `""` and, for a `None` or blank message, the history unchanged and no request sent to the model; otherwise the history grows by exactly one turn, the earlier turns are untouched, and the new turn holds the message unstripped and the reply of `generate_response` |
| Session.Undo | linkedin_consultant.py:318 | a non-empty history loses exactly its last turn and keeps its prefix; an empty history stays empty |
| Session.UndoAfterSubmit | linkedin_consultant.py:318 | undo takes back exactly the turn a submission appended |
| Session.Clear | linkedin_consultant.py:311 | the chatbot is set to `None` and the message box gets the greeting, which is not blank |
| Session.ClearStartsOver | linkedin_consultant.py:311 | after clearing, the shown conversation is empty, undo has nothing to remove, and the greeting would be accepted as a message |

## Left out

- The Gemini client and `generate_content` (`linkedin_consultant.py:20,31-33`). This is a network call, so it is the parameter `call`. Any exception on the way, including an unusable `response.text`, is a `CallFailed` carrying the exception's text.
- `os.getenv("GOOGLE_API_KEY")` (`linkedin_consultant.py:14`). The key is the parameter `apiKey`, and `None` or `""` counts as missing, as Python's `not api_key` does.
- The persona instruction (`linkedin_consultant.py:33-85`). `PromptAssembly.Persona` reproduces only its first sentence. Nothing proved depends on its wording, only on its position in front of the prompt.
- The other lookups of the key (`linkedin_consultant.py:218`, for the status line of the page, and `linkedin_consultant.py:329`, for the startup warning), the server launch on the fixed port 7860 and the startup prints. These are process I/O.
- The JavaScript welcome animation, the page layout, CSS, example prompts, footer and event registration. These are UI wiring.
- `queue=True`. Serializing the submissions is the framework's concurrency control.
- The unused `markdown` import.
- Session.ClearStartsOver: assumes the chatbot component shows `None` as the empty conversation (`Session.Shown`). That behaviour belongs to the UI framework, which is not part of this model.
- No lemma evaluates `Normalize` on a concrete reply. `ResponseNormalizer.NormalizeLine` states the lines of every reply in general.
- Unicode: strings are sequences of Unicode scalar values, and `len` is their count. A Python `str` can also hold lone surrogates, which Dafny's `char` excludes. `str.isspace` is modelled by its fixed set of whitespace characters.
