# mailcraft-llm core, modelled in Dafny

mailcraft-llm is a one-page Streamlit application (`app.py`) that drafts
Japanese business e-mails with a language model. The user picks a
relationship, a purpose and a tone, types the required information and an
optional signature, and presses "generate"; the application validates the
required information, normalises it into bullet lines, builds a prompt, sends
it to the model, and splits the reply into a subject and a body. Two rewrite
buttons send the current mail back with an instruction, and a clear button
resets the form.

This project models that core:

- `text.dfy` (module `Text`): the string operations the application relies on:
  `str.strip`, `str.splitlines`, `"\n".join`, `str.startswith`. It proves the
  facts the other modules need, such as strip being idempotent and splitting
  undoing a join.
- `validation.dfy` (module `Validation`): `validate_inputs` as a function that
  returns which warning the page shows (`Empty`, `TooShort`, `TooLong`) or `Ok`.
  The code strips the text only for the blank test. Both length bounds count the
  raw text with its surrounding whitespace. The model follows the code.
- `bullets.dfy` (module `Bullets`): `normalize_bullets` as the loop the source
  runs. It is proved equal to a function of its input, and that function is
  proved idempotent, to keep only non-blank lines, and to give each of them the
  `- ` marker.
- `prompts.dfy` (module `Prompts`): `build_prompt` and `build_rewrite_prompt`.
  It proves the signature placeholder rule. It also proves that the format
  example both prompts show, and the current mail the rewrite prompt shows, are
  texts the parser reads back.
- `parser.dfy` (module `Parser`): `parse_output` as the loop the source runs,
  with `continue` past subject lines and `break` at the first body line. It is
  proved equal to a function. That function is characterised independently:
  - the last subject line before the first body line decides the subject;
  - a missing subject gives the placeholder `（自動生成）`;
  - a missing body gives the whole stripped reply;
  - a reply in the requested format parses back to its parts.
- `session.dfy` (module `Session`): the session store as a class holding a map
  from the seven keys to their texts. It carries the button handlers:
  - `init_session_state`;
  - `generate_with_llm`;
  - `handle_generate`;
  - `handle_rewrite`;
  - `handle_clear`.

  The model's reply is a parameter `llm: string -> LlmReply`. A raising call is
  `Failure`. Whether `OPENAI_API_KEY` is set is a boolean. Each handler returns
  how it ended and the prompt it sent, if any. A handler that fails leaves the
  store unchanged. In `handle_rewrite`, the guard `if new_subject:` is always
  true: the proof shows that a successful rewrite always replaces the subject.
  So when the model's rewrite reply has no subject line, the user's subject is
  overwritten with the placeholder `（自動生成）`. This follows from
  `HandleRewrite` together with `Parser.ParseWithoutSubject`.

Both length bounds of the validation count raw characters, so surrounding
whitespace counts toward the minimum (see
`Validation.PaddingCountsTowardsMinimum`).

## Model

| member | source | states |
|---|---|---|
| `Text.Strip` | app.py:45 | `strip` is empty exactly when every character is whitespace; otherwise the result starts and ends with a non-whitespace character |
| `Text.StripIdempotent` | app.py:131 | stripping an already stripped text changes nothing |
| `Text.StripIsSlice` | app.py:45 | what `strip` keeps is a contiguous piece of the input |
| `Text.Lines` | app.py:45 | `splitlines` yields lines without line breaks, and no lines exactly for the empty text |
| `Text.LinesJoin` | app.py:54 | splitting a `"\n".join` of break-free lines whose last line is non-empty gives the lines back |
| `Text.SplitAtBreak` | app.py:106 | a line break splits a text into the pieces before it followed by the pieces after it |
| `Validation.Validate` | app.py:31-41 | blank text (all whitespace) gives Empty. Non-blank text shorter than 10 raw characters gives TooShort. Non-blank text longer than 4000 raw characters gives TooLong. Ok exactly when some character is not whitespace and 10 <= length <= 4000 |
| `Validation.PaddingCountsTowardsMinimum` | app.py:35 | one letter padded with nine spaces passes validation although its stripped text has length 1 |
| `Bullets.Bullet` | app.py:50-53 | a bullet line always starts with `- ` and ends with the original line; a line already starting with `- ` is kept unchanged, any other line becomes `- ` followed by the line |
| `Bullets.DropEmpty` | app.py:48-49 | the kept lines are non-empty lines of the input, and no more of them |
| `Bullets.DropEmptyKeepsNonEmpty` | app.py:47-49 | the kept lines are exactly the input lines minus the empty ones: every non-empty line is kept as often as it occurs |
| `Bullets.NormalizeBullets` | app.py:44-54 | the loop returns the join of the bullet forms of the non-empty stripped lines, in order |
| `Bullets.BulletLinesCorrespond` | app.py:47-53 | exactly one output line per non-empty stripped line, the i-th output line being the bullet form of the i-th such line |
| `Bullets.DropEmptyAppend` | app.py:47-49 | skipping empty lines keeps the order of the remaining lines |
| `Bullets.BulletLinesOfBullets` | app.py:50-51 | lines that already carry the marker pass through unchanged |
| `Bullets.NormalizedShape` | app.py:44-54 | the lines of the result are exactly the emitted bullets, each starting with `- ` and carrying no surrounding whitespace |
| `Bullets.NormalizeIdempotent` | app.py:44-54 | normalising an already normalised text returns it unchanged |
| `Bullets.NormalizedEmpty` | app.py:44-54 | the result is empty exactly when every input line is blank |
| `Prompts.SignatureOrNone` | app.py:72 | the signature shown is never empty: the signature itself, or `（なし）` when none was given |
| `Prompts.SignaturePlaceholder` | app.py:72 | the prompt shows `（なし）` exactly when the signature is empty or is that very text |
| `Prompts.BuildPrompt` | app.py:57-73 | the generation prompt starts with the instructions and the format block and ends with the signature line |
| `Prompts.BuildRewritePrompt` | app.py:87-100 | the rewrite prompt starts with the instructions and the format block and ends with the current subject and body |
| `Prompts.FormatExampleParses` | app.py:64-66 | the format block shown to the model is itself a reply the parser accepts, with subject `...` and body `...` |
| `Prompts.CurrentMailParses` | app.py:97-99 | the current mail in the rewrite prompt, sent back unchanged, parses to the same stripped subject and body |
| `Parser.MarkersDisjoint` | app.py:107-116 | no line is both a subject line and a body line |
| `Parser.Parse` | app.py:103-124 | the parsed subject is never empty, and the parsed body is empty only when the whole reply is blank |
| `Parser.ParseOutput` | app.py:103-124 | the loop with `continue` and `break` computes `Parse`, and its subject is never empty |
| `Parser.FirstBodyLine` | app.py:116-118 | the index of the first body-marker line: no earlier line is one |
| `Parser.ScanFinds` | app.py:109-118 | the forward scan ends with the subject of the last subject line before the first body line, and the stripped join of the lines after that body line |
| `Parser.ParseFinds` | app.py:103-124 | the parse result in terms of that independent description, with the placeholder and the stripped reply as fallbacks |
| `Parser.LastSubjectIsLastMarker` | app.py:109-115 | a later subject line overrides an earlier one |
| `Parser.ParseSubjectIsLastMarker` | app.py:109-121 | the subject is the stripped remainder of the last subject line before the first body line, or the placeholder when that remainder is empty |
| `Parser.ParseWithoutSubject` | app.py:120-121 | with no subject line before the first body line, the reply is the placeholder and the whole stripped text |
| `Parser.SubjectLineRead` | app.py:110-113 | either subject marker is recognised, and the text after it is read back stripped |
| `Parser.ParseDropsBodyMarkerLine` | app.py:116-117 | text on the body-marker line itself is not part of the body; the body is the stripped join of the later lines |
| `Parser.ParseRoundTrip` | app.py:103-124 | a reply in the requested format, with either colon form of each marker, parses back to its stripped subject and body |
| `Session.InitializedStore` | app.py:16-28 | after initialisation every key is present. Present values are kept and missing keys take their defaults. The default selections are among the choices and the default texts are empty. Initialising twice equals initialising once |
| `Session.ClearedStoreIsDefaults` | app.py:184-197 | clearing followed by the rerun's initialisation gives every key its default |
| `Session.SessionState.constructor` | app.py:16 | a fresh session holds no keys |
| `Session.SessionState.InitSessionState` | app.py:16-28 | the loop fills exactly the missing keys with defaults and keeps present values |
| `Session.SessionState.HandleClear` | app.py:184-197 | every key of the page is deleted |
| `Session.SessionState.GenerateWithLlm` | app.py:127-142 | A missing input means no prompt is sent. Otherwise the prompt sent is the generation prompt over the stripped, normalised required info and the stripped signature. There is a reply exactly when the model answers, and it is the parse of the answer. The store is only read |
| `Session.SessionState.HandleGenerate` | app.py:145-159 | Without an API key, or with invalid required info, nothing is sent and the matching warning is returned. A failed generation is reported. Only success changes the store, and only the subject and body, which become the parsed reply |
| `Session.SessionState.HandleRewrite` | app.py:162-181 | Without an API key, or with a blank stripped body, nothing is sent. Otherwise the rewrite prompt over the stripped subject and body is sent. A failure leaves the store unchanged. A reply always replaces both the subject and the body |

## Left out

- The page rendering (`render_inputs`, `render_outputs`, `render_actions`, `main`), the warning and error texts, and the spinner. The handlers return an `Outcome` naming which message the page would show.
- The condition in `render_outputs` (app.py:213) for showing the rewrite buttons is not modelled, because it is UI. The two fixed instructions those buttons pass (app.py:219, 227-228) are not modelled either. `HandleRewrite` takes the instruction as a parameter.
- `call_llm` and `get_llm`: the network call, the cached client, `MODEL_NAME` and `TEMPERATURE`. The model's answer is a parameter, and any exception it raises is the single value `Failure`.
- `load_dotenv` and `os.getenv`: the environment is reduced to one boolean saying whether an API key is set.
- `splitlines` is modelled with `\n` as the only line break. `\r\n`, a lone `\r`, form feeds and the Unicode line separators that Python also splits on are not modelled.
- `strip` removes a fixed whitespace set: space, tab, `\n`, `\r`, vertical tab, form feed, U+00A0 and U+3000. Python's full Unicode whitespace class is not modelled.
- Session.SessionState.HandleGenerate: requires the `required_info` key whenever an API key is set. In the source, a missing key there raises outside the `try` block and ends the script run, and that crash is not modelled. Missing keys read inside `generate_with_llm` are modelled as a caught failure.
- Streamlit widgets writing user input into the store between runs are not modelled. The handlers read whatever the store holds.
