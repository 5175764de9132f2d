# GPTCodeEnhance completion pipeline in Dafny

This project models the core of the GPTCodeEnhance editor add-on, `src/chatgptAPI.js`.
Each editor command (refactor, improve, modularize, document, enhance from comments,
improve design patterns) goes through the same pipeline:

1. **Prompt substitution.** `generateMessageWithPrompt` puts the selected code into the
   command's prompt template with `prompt.replace("{selectedCode}", selectedCode)`.
   The model gives JavaScript's own meaning to that call. It replaces only the first
   occurrence of the 14-character placeholder. If the template has no placeholder, it is
   sent unchanged. The replacement patterns `$$`, `$&`, `` $` `` and `$'` in the selected
   code are expanded, as ECMA-262 GetSubstitution does for a match without capture groups.
   Other `$` sequences stay literal.
2. **Reply check.** A reply is taken only if `/^```|```$/` does not match it, that is, if it
   neither starts nor ends with three backticks. A fenced reply is refused, not unwrapped.
   The later `.replace(/^```|```$/g, '')` is modelled with the regex's real semantics
   (left to right, no overlap). It is proved to change nothing on a reply that passed the check.
3. **Bounded retry.** `retryGenerateMessage` makes at most five requests. A thrown error
   and a refused reply each use up one attempt, and the loop goes on. The first taken reply
   is returned at once. `null` (here `None`) comes back after five failed attempts.

The service call (`generateMessage`) is replaced by a script: `upstream[k]` is the
outcome of attempt `k`, either `Throw` or `Msg(text)`. The script holds at least five
outcomes. The methods return the result and `sent`, the list of prompts sent, one per
attempt made.

Modules: `Wrappers` (the `Option` type), `JsStrings` (the JavaScript string built-ins
the pipeline uses) and `ChatGptApi` (the pipeline itself and the exported commands).

Facts about the code that the model makes explicit:
- The retry budget is 5 (`src/chatgptAPI.js:39`).
- A fenced reply is refused and retried. It is never unwrapped. For example, the reply
  "```\nfunction f(){}\n```" is refused (`AcceptanceExamples`).
- The selected code is proved to be inserted verbatim when no `$` in it is followed by
  `$`, `&`, `` ` `` or `'` (`PromptSplicesPlainCode`). Code such as `$x` is inserted as it
  is (`DollarIdentifierExample`). A `$` followed by one of those four characters is
  expanded: selecting `$&` sends the template with its placeholder still in place
  (`DollarAmpersandKeepsMarker`).

## Model

| member | source | states |
|---|---|---|
| `JsStrings.IndexOf` | src/chatgptAPI.js:61 | The index found is an occurrence of the pattern, and no earlier index from the start position is one. `None` means there is no occurrence at or after the start position. |
| `JsStrings.ExpandPlain` | src/chatgptAPI.js:61 | A replacement text in which no `$` is followed by `$`, `&`, `` ` `` or `'` is inserted exactly as written. |
| `JsStrings.FirstOccurrenceIsIndexOf` | src/chatgptAPI.js:61 | `indexOf` from the start returns exactly the independently defined first occurrence of the pattern. |
| `JsStrings.ReplaceFirstAbsent` | src/chatgptAPI.js:61 | If the pattern does not occur, `replace` returns its input unchanged. |
| `JsStrings.ReplaceFirstSplices` | src/chatgptAPI.js:61 | Given the first occurrence of the pattern (an occurrence with none before it), the result keeps the text before it and the text after it. Only that one occurrence becomes the expanded replacement, and the length changes accordingly. |
| `ChatGptApi.PromptWithoutMarkerUnchanged` | src/chatgptAPI.js:61 | A template without `{selectedCode}` is sent unchanged, and the selected code is dropped. |
| `ChatGptApi.PromptSplicesPlainCode` | src/chatgptAPI.js:60-61 | For code in which no `$` is followed by `$`, `&`, `` ` `` or `'`: the result length is the template length − 14 + the code length. The code appears verbatim at the placeholder's first index. The template text before it and after it is kept. |
| `ChatGptApi.PromptKeepsLaterMarkers` | src/chatgptAPI.js:61 | Whatever the selected code is, every placeholder after the first is still present in the prompt, shifted by the change in length. |
| `ChatGptApi.DollarAmpersandKeepsMarker` | src/chatgptAPI.js:61 | Selecting the text `$&` leaves the template unchanged, placeholder included, because JavaScript expands `$&` to the matched text. |
| `ChatGptApi.PromptAfterPlainHead` | src/chatgptAPI.js:61 | For a template made of text without `{`, a placeholder and any rest, and code without an expandable `$` pattern, the prompt is that text, then the code, then the rest unchanged. |
| `ChatGptApi.RefactorTemplateExample` | src/chatgptAPI.js:61 | Template "Refactor:\n{selectedCode}" with code "x=1" gives "Refactor:\nx=1". |
| `ChatGptApi.DollarIdentifierExample` | src/chatgptAPI.js:61 | Template "a{selectedCode}b" with code "$x" gives "a$xb": a `$` before an ordinary character is not expanded. |
| `ChatGptApi.StripAcceptedIsIdentity` | src/chatgptAPI.js:42-43 | On a reply that passed the fence test, the anchored strip is a no-op, so the returned text equals the reply exactly. |
| `ChatGptApi.StripFencedText` | src/chatgptAPI.js:43 | On a fully fenced text, the global strip removes exactly the opening and the closing fence. |
| `ChatGptApi.AcceptanceExamples` | src/chatgptAPI.js:42 | The empty reply, "``" and plain text are taken. A fenced code block and a bare fence are refused. |
| `ChatGptApi.FirstSuccessFrom` | src/chatgptAPI.js:39-44 | It returns the first attempt in the range whose reply is taken, with every earlier attempt in the range failed. `None` means every attempt in the range failed. |
| `ChatGptApi.Retry` | src/chatgptAPI.js:38-51 | Between 1 and 5 attempts are made, and every attempt before the last one failed. The result is the last attempt's reply exactly when that reply was taken. `null` comes back only after 5 attempts. |
| `ChatGptApi.RetryNullIffAllFail` | src/chatgptAPI.js:39-50 | The result is `null` if and only if all five attempts threw or were refused. In that case five attempts were made. |
| `ChatGptApi.RetryResultUnfenced` | src/chatgptAPI.js:42-43 | A non-null result neither starts nor ends with three backticks. |
| `ChatGptApi.RetryIgnoresLaterAttempts` | src/chatgptAPI.js:41-44 | After a taken reply, no further attempt is made. Two scripts that agree up to the last attempt made give the same outcome, whatever follows. |
| `ChatGptApi.ThrowMovesOn` | src/chatgptAPI.js:40-47 | An exception on attempt k (k < 4, nothing earlier taken) counts as used, and a further request follows. |
| `ChatGptApi.ThrowAndRefusalAlike` | src/chatgptAPI.js:40-48 | Replacing an exception by a refused reply anywhere in the script leaves the outcome unchanged. |
| `ChatGptApi.SecondAttemptSucceeds` | src/chatgptAPI.js:39-44 | If the first attempt fails and the second reply is taken, that reply is returned after exactly two requests. |
| `ChatGptApi.RetryGenerateMessage` | src/chatgptAPI.js:38-51 | The loop sends the prompt once per attempt, at most five times. A non-null result is the unfenced reply of the last attempt, and all earlier attempts failed. `null` comes after five failures. Its outcome equals `Retry`. |
| `ChatGptApi.GenerateMessageWithPrompt` | src/chatgptAPI.js:60-63 | Every request sent carries the template with the code substituted. The result and the attempt count are those of `Retry`. |
| `ChatGptApi.RunCommand` | src/chatgptAPI.js:68-75 | Each exported command runs the pipeline on its own template from the template store. |

## Left out

- `generateMessage` (src/chatgptAPI.js:15-30): the HTTP POST and the reading of the JSON reply are replaced by the script of attempt outcomes. A malformed body or a failed request is a `Throw`. The script does not depend on the prompt.
- The request constants (model name, `temperature: 0.6`, `presence_penalty: 0`, `stream: false`) and the endpoint URL: these are payload data with no logic.
- `console.error` and `console.log` (src/chatgptAPI.js:46, 48): they only report and do not affect control flow.
- `async`/`await`: the attempts run strictly one after another, so they are modelled as plain sequential steps.
- The contents of `data/prompts.json`: `data/prompts.json` is not part of this model. Templates are arbitrary strings held in `Prompts`.
- `extension.js` (command registration, the editor edit and the error notification) is not part of this model. That glue calls the command even on an empty selection and only chooses the error message afterwards, so the core has no no-input short-circuit to model.
- Strings are sequences of Unicode characters, while JavaScript strings and their `.length` count UTF-16 code units. No contract depends on the difference: the placeholder and the fence are ASCII, and the length equation in `PromptSplicesPlainCode` holds in either unit.
