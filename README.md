# nextqna: section parser, colour lookup and answer endpoint in Dafny

This project models two small pieces of logic from the nextqna question-and-answer
app and proves properties about them.

1. **The code-response display** (`app/Code.tsx`).
   - `parseCodeSections` splits the model's answer text into `{type, content}`
     sections. It makes one pass over the lines and keeps an accumulator
     (`currentSection`) and an open label (`currentType`).
   - `getLanguageColor` title-cases a label and looks it up in a fifteen-entry
     colour table.
   - The component renders one card per section, keyed `${type}-${index}`.
2. **The answer endpoint** (`app/api/answer/route.ts`).
   - It rotates round-robin through five API keys.
   - It validates the question and chooses the system prompt from the topic.
   - It calls the completion service, falls back when no answer came back, and
     turns anything thrown into a status-500 error response.

Modules, one per file:

- `JsString`: the JavaScript string built-ins the code uses, over ASCII.
  These are `trim`, `endsWith`, `replace` with a string pattern (first
  occurrence only), `split`, `toLowerCase`/`toUpperCase` and the decimal text of
  an index.
- `CodeSections`: the parser.
  - The loop body is the function `Step`.
  - `Run` folds `Step` over the lines, and `Parse` adds the final push.
  - The method `ParseCodeSections` is the source's `for` loop, proved equal to
    `Parse`.
  - Lemmas state what the parser guarantees.
- `LanguageColor`: the label normalisation (`toLowerCase` then
  `/\b\w/g` upper-casing), the colour table and the lookup. It also models the
  lookup as JavaScript evaluates it on an object literal (see Findings).
- `CodeDisplay`: the `sections.map` rendering into cards, and the distinctness
  of the card keys.
- `AnswerRoute`: the handler's decisions as pure functions (`Respond`), and the
  class `KeyRotation`. Its field `currentKeyIndex` is the source's module-level
  index; its methods `GetNextApiKey` and `Post` update it in place.

Details of the code the model keeps:

- A label is the trimmed line with its **first** `:` removed, because
  `replace(":", "")` replaces the first occurrence: `"a:b:"` gives `"ab:"`.
- While a label is open, **every** blank line flushes. A section therefore never
  keeps an internal blank line.
- A non-blank line that is not a label line, met while no label is open, is
  appended to the accumulator. From then on no label line is recognised and
  nothing more is emitted.
- Title casing upper-cases a word character that follows any non-word
  character. So the table keys `HTML`, `CSS`, `JavaScript`, `TypeScript`, `PHP`
  and `SQL` can never match.
- `CSS` and `TypeScript` share one colour token, as do `HTML` and `Swift`.
- An invalid question answers with status 500, because the validation error is
  thrown into the same `catch` as every other failure.
- The topic is turned into text only when it is truthy, after the key has been
  taken. An object whose own `toString` is not a function, such as
  `{"toString": 0}`, makes that conversion throw a `TypeError`, which the same
  `catch` turns into status 500.

## Model

| member | source | states |
|---|---|---|
| JsString.IsSpace | app/Code.tsx:26-50 | Definition, no contract: the ASCII white space `trim` removes (space, tab, line feed, carriage return, vertical tab, form feed). |
| JsString.Trim | app/Code.tsx:26 | The trimmed text is no longer than the input. It is empty exactly when the input is all white space. Otherwise it starts and ends with a non-space character. |
| JsString.IsBlank | app/Code.tsx:26-47 | Definition, no contract: `x.trim() === ""`. |
| JsString.TrimIdempotent | app/Code.tsx:32-35 | Trimming an already trimmed text changes nothing. |
| JsString.TrimOfTrimmed | app/Code.tsx:32-35 | A text with no white space at either end is its own trim. |
| JsString.TrimRemovesSpace | app/Code.tsx:26 | Everything trim removes, at either end, is white space. |
| JsString.TrimDropsFinalNewline | app/Code.tsx:42-50 | The newline appended after the last line does not survive the trim of a non-blank accumulator. |
| JsString.TrimNoBlankLine | app/Code.tsx:35 | Trimming a text none of whose lines is blank leaves a text none of whose lines is blank. |
| JsString.EndsWith | app/Code.tsx:26 | Definition, no contract: `endsWith(":")` holds of a non-empty text whose last character is `:`. |
| JsString.ReplaceFirst | app/Code.tsx:28 | Without the character the text is unchanged; with it, exactly one character is removed. |
| JsString.ReplaceFirstAt | app/Code.tsx:28 | The character removed is the first occurrence: the result is the text before it followed by the text after it. |
| JsString.Split | app/Code.tsx:22 | `split` always yields at least one piece. |
| JsString.SplitPiecesNoSep | app/Code.tsx:22 | No piece contains the separator. |
| JsString.SplitNoSep | app/Code.tsx:22 | A text without the separator splits into itself alone. |
| JsString.SplitConcat | app/Code.tsx:22 | Splitting `a + sep + b` gives the pieces of `a` followed by the pieces of `b`. |
| JsString.ToLower | app/Code.tsx:81 | Lower-casing keeps the length and lower-cases each character. |
| JsString.LowerChar | app/Code.tsx:81 | One character of `toLowerCase`: an ASCII capital moves down by 32, any other character is kept, and the result is never a capital. |
| JsString.UpperChar | app/Code.tsx:82 | One character of `toUpperCase`: an ASCII lower-case letter moves up by 32, any other character is kept, and the result is never lower case. |
| JsString.Decimal | app/Code.tsx:89 | The decimal text of an index is non-empty and made of digits. It has one digit exactly when the index is below ten. |
| JsString.DecimalInjective | app/Code.tsx:89 | Different indices have different decimal texts. |
| CodeSections.SectionOf | app/Code.tsx:33-51 | Definition, no contract: the pushed record, the open label with the trimmed accumulator. |
| CodeSections.LooksLikeLabel | app/Code.tsx:26 | Definition, no contract: the trimmed line ends with `:`. |
| CodeSections.LabelOf | app/Code.tsx:28 | Definition, no contract: the trimmed line with its first `:` removed. |
| CodeSections.Step | app/Code.tsx:26-43 | Definition, no contract: one iteration of the loop body, with its three branches in the source's order. |
| CodeSections.Run | app/Code.tsx:24-44 | Definition, no contract: the loop over the lines, one `Step` per line. |
| CodeSections.Finish | app/Code.tsx:46-52 | Definition, no contract: the push after the loop, taken only with a non-blank accumulator and an open label. |
| CodeSections.ParseLines | app/Code.tsx:24-54 | Definition, no contract: the loop from the empty state, then the final push. |
| CodeSections.Parse | app/Code.tsx:17-55 | Definition, no contract: `parseCodeSections` on the text split at `\n`. |
| CodeSections.ParseCodeSections | app/Code.tsx:17-55 | The loop returns `Parse(text)`. Every section is well formed: non-empty label, non-empty content, content already trimmed, no blank line inside. There are at most half as many sections as lines. |
| CodeSections.RunAppend | app/Code.tsx:24-44 | Running the loop over `a + b` is running it over `a`, then over `b` from where it stopped. |
| CodeSections.RunSnoc | app/Code.tsx:24-44 | One more line is one more loop iteration. |
| CodeSections.PushWellFormed | app/Code.tsx:32-36 | A push from an open, non-blank accumulator pushes a well-formed section. |
| CodeSections.StepInv | app/Code.tsx:26-43 | Each iteration keeps the invariant: pushed sections are well formed, and an open label's accumulator holds only non-blank lines. |
| CodeSections.RunInv | app/Code.tsx:24-44 | The invariant holds after any number of lines. |
| CodeSections.FinishWellFormed | app/Code.tsx:46-52 | The final push also pushes only a well-formed section. |
| CodeSections.ParseLinesWellFormed | app/Code.tsx:24-52 | Every section parsed from lines without `\n` is well formed. |
| CodeSections.ParseWellFormed | app/Code.tsx:17-55 | Every parsed section has a non-empty type, a non-empty and already trimmed content, and no blank line in it. |
| CodeSections.ContentTrimIdempotent | app/Code.tsx:35-50 | Trimming an emitted content, once or twice, gives it back. |
| CodeSections.NoLabelLineRun | app/Code.tsx:26-30 | Without a label line the loop opens no label and pushes nothing. |
| CodeSections.NoLabelLineNoSection | app/Code.tsx:26-47 | If no line's trimmed form ends with `:`, the result is empty. |
| CodeSections.RunLabelsFrom | app/Code.tsx:26-28 | Every label in the loop state, pushed or open, comes from one of the lines. |
| CodeSections.LabelsFromLonger | app/Code.tsx:24 | Labels taken from the first lines are still taken from the lines once more lines follow. |
| CodeSections.StepLabelsFrom | app/Code.tsx:26-39 | An iteration opens only the label of its own line, and pushes only the open label. |
| CodeSections.ParseLabelsFrom | app/Code.tsx:26-50 | Every parsed type is the label of some input line ending in `:`. |
| CodeSections.LabelRemovesFirstColon | app/Code.tsx:28 | The label is the trimmed line with its first `:` removed. |
| CodeSections.LabelDropsFinalColon | app/Code.tsx:28 | When the only `:` is the last character, the label is the trimmed line without it. |
| CodeSections.FirstColonRemoved | app/Code.tsx:28 | The line `a:b:` opens the label `ab:`. |
| CodeSections.LastLabelWins | app/Code.tsx:26-39 | Two label lines with only blank lines between them leave the state that the second alone would. |
| CodeSections.BlankLinesKeepSections | app/Code.tsx:30-43 | Blank lines after a label line push nothing and keep the accumulator blank. |
| CodeSections.LastLabelWinsParse | app/Code.tsx:26-52 | Deleting the first of two such label lines, anywhere between sections, leaves the result unchanged. |
| CodeSections.LastLabelWinsRun | app/Code.tsx:24-44 | The loop state after both label lines is the state after the second alone. |
| CodeSections.SameRunSameTail | app/Code.tsx:24-52 | Two inputs that leave the loop in the same state parse alike whatever follows. |
| CodeSections.LabelInsideContent | app/Code.tsx:26-43 | Once content has accumulated, a line ending in `:` is appended as content. |
| CodeSections.BlockedForever | app/Code.tsx:26-43 | With no label open and a non-blank accumulator, no later line opens a label and nothing more is pushed. |
| CodeSections.StrayLineBlocks | app/Code.tsx:24-52 | A non-blank, non-label line met with no label open blocks every later label. The result is what was pushed before it. |
| CodeSections.StrayFirstLine | app/Code.tsx:24-52 | A first line that is neither blank nor a label line makes the result empty. |
| CodeSections.RunSectionsGrow | app/Code.tsx:33-48 | Sections are only ever appended. |
| CodeSections.PrefixSectionsFirst | app/Code.tsx:24-52 | What the first lines pushed begins the final result, so sections come out in input order. |
| CodeSections.RunWeight | app/Code.tsx:24-44 | Each line adds at most one to twice the section count plus the open label plus a non-blank accumulator. |
| CodeSections.ParseLinesCount | app/Code.tsx:24-52 | At most half as many sections as lines. |
| CodeSections.ParseCount | app/Code.tsx:17-55 | An answer text gives at most half as many sections as it has lines. |
| CodeSections.PlainLabelLine | app/Code.tsx:26-28 | A line with no surrounding space whose only `:` is last is a label line for the text before the colon. |
| CodeSections.PlainContentLine | app/Code.tsx:26-30 | A line with no surrounding space that does not end in `:` is neither a label line nor blank. |
| CodeSections.OneLineContent | app/Code.tsx:35 | A one-line accumulator trims back to that line. |
| CodeSections.StepOpens | app/Code.tsx:26-29 | Between sections, a plain label line opens its label. |
| CodeSections.StepAppends | app/Code.tsx:40-43 | Under an open label, a plain line is appended with a newline. |
| CodeSections.StepFlushes | app/Code.tsx:30-39 | Under an open label, any blank line pushes the open label with the trimmed accumulator when the accumulator is not blank, pushes nothing when it is, and in both cases closes the label and empties the accumulator. |
| CodeSections.StepBlankIdle | app/Code.tsx:40-52 | With no label open, an empty line is appended to the accumulator as a newline, and the final push adds nothing. |
| CodeSections.OneBlock | app/Code.tsx:24-44 | A label line, one content line and an empty line push exactly that section. |
| CodeSections.TwoSectionsExample | app/Code.tsx:17-55 | Two such blocks and a trailing empty line give the two sections, in order. |
| CodeSections.SplitBlockText | app/Code.tsx:22 | The text `a:\nx\n\n` followed by more text splits into the lines `a:`, `x`, the empty line, then the pieces of the rest. |
| CodeSections.TwoSectionsText | app/Code.tsx:17-55 | The answer text `a:\nx\n\nb:\ny\n\n`, for plain one-line labels and contents, parses to the two sections `(a, x)` and `(b, y)`, in order. |
| CodeSections.TwoSectionsLiteral | app/Code.tsx:17-55 | The text `H:\nx\n\nC:\ny\n\n` parses to the sections `(H, x)` and `(C, y)`. |
| LanguageColor.IsWordChar | app/Code.tsx:82 | Definition, no contract: `\w`, the ASCII letters, digits and `_`. |
| LanguageColor.StartsWord | app/Code.tsx:82 | Definition, no contract: `\b` before a word character, at the start or after a non-word character. |
| LanguageColor.CapitalizeWords | app/Code.tsx:82 | The regular-expression replacement keeps the length. |
| LanguageColor.Normalize | app/Code.tsx:80-82 | The key differs from the label only in the case of letters. A character of the key is upper case exactly when it is a letter at the start of a word of the label. |
| LanguageColor.LowerKeepsWordChar | app/Code.tsx:81-82 | Lower-casing does not change which characters are word characters or letters. |
| LanguageColor.NormalizeToLower | app/Code.tsx:80-82 | The key lower-cases to the lower-cased label. |
| LanguageColor.NormalizeIdempotent | app/Code.tsx:80-82 | Normalising a normalised key gives it back. |
| LanguageColor.ReachableIffNormal | app/Code.tsx:80-83 | A key is produced by some label exactly when normalising it leaves it unchanged. |
| LanguageColor.LowerFirstUnreachable | app/Code.tsx:82 | No label produces a key that starts with a lower-case letter. |
| LanguageColor.InnerCapitalUnreachable | app/Code.tsx:82 | No label produces a key with a capital right after a word character. |
| LanguageColor.NormalFixedPoint | app/Code.tsx:80-82 | A key whose capitals sit exactly at the word starts is its own normal form. |
| LanguageColor.ColorMap | app/Code.tsx:61-77 | Definition, no contract: the fifteen keys and colour tokens of the table. |
| LanguageColor.GetLanguageColor | app/Code.tsx:60-84 | The colour is a table value or `text-gray-600`. It is grey exactly when the normalised label is not a key of the table, and otherwise it is that key's value. |
| LanguageColor.CaseInsensitive | app/Code.tsx:80-83 | Labels that differ only in case get the same key and the same colour. |
| LanguageColor.SameLowerSameKey | app/Code.tsx:80-82 | Labels with the same lower-case form get the same key. |
| LanguageColor.UnreachableKeys | app/Code.tsx:62-82 | No label is normalised to `HTML`, `CSS`, `JavaScript`, `TypeScript`, `PHP` or `SQL`. |
| LanguageColor.UnreachableKeysGray | app/Code.tsx:62-83 | Labels spelled like those six keys, in any case, get `text-gray-600`. |
| LanguageColor.ColorsNeverShown | app/Code.tsx:61-83 | `text-blue-600`, `text-yellow-600`, `text-purple-600` and `text-cyan-600` are never returned. |
| LanguageColor.JavaIsRed | app/Code.tsx:65-83 | `java`, in any case, gives `text-red-600`. |
| LanguageColor.CppIsPink | app/Code.tsx:71-83 | `c++`, in any case, gives `text-pink-600`. |
| LanguageColor.LowerOfKeys | app/Code.tsx:65-76 | The lower-case forms of the reachable table keys. |
| LanguageColor.ObjectPrototypeMembers | app/Code.tsx:83 | Definition, no contract: the twelve names an object literal inherits from `Object.prototype`. |
| LanguageColor.GetLanguageColorAsWritten | app/Code.tsx:61-83 | The lookup that also sees members inherited by an object literal. An inherited result is the prototype member the key names. A string result is the own-entry colour. |
| LanguageColor.OnlyProtoReachable | app/Code.tsx:80-83 | Of the inherited member names, only `__proto__` is ever a normalised label. |
| LanguageColor.AsWrittenAgreesElsewhere | app/Code.tsx:83 | For every label not spelled `__proto__`, the lookup as written agrees with the own-entry lookup. |
| LanguageColor.ProtoLabelLeaks | app/Code.tsx:83-92 | A label spelled `__proto__` gets the prototype object from the lookup as written, and grey from the own-entry lookup. |
| CodeDisplay.CardKey | app/Code.tsx:89 | Definition, no contract: the text `${type}-${index}`. |
| CodeDisplay.ClassText | app/Code.tsx:92 | Definition, no contract: the text the template literal makes of the lookup's value. A colour string stays itself and the prototype object becomes `[object Object]`. The other inherited members are unreachable, so their text is left as the empty string. |
| CodeDisplay.Render | app/Code.tsx:86-105 | One card per section, in section order. Each card shows its section's type as title and its content as code. The colour is the lookup as written, turned into text by the template literal. |
| CodeDisplay.RenderedColor | app/Code.tsx:83-92 | A card's colour is the own-entry colour of its label, or grey, except for a label spelled `__proto__` in any case, whose class gets `[object Object]`. |
| CodeDisplay.KeyDeterminesIndex | app/Code.tsx:89 | A key `${type}-${index}` determines its index, whatever the type contains. |
| CodeDisplay.KeysDistinct | app/Code.tsx:88-89 | No two cards share a key. |
| CodeDisplay.RenderedAnswer | app/Code.tsx:57-99 | Every card rendered from a parsed answer has a non-empty title and non-empty code. |
| AnswerRoute.Truthy | app/api/answer/route.ts:41-48 | Definition, no contract: JavaScript truthiness of the question and the topic. `undefined`, `null` and the empty string are falsy. |
| AnswerRoute.Display | app/api/answer/route.ts:49 | What `${topic}` evaluates to: a string's own text, or for any other JSON value its text or the value the conversion throws. Only such other values throw. |
| AnswerRoute.ValidQuestion | app/api/answer/route.ts:41-43 | The question passes exactly when it is a non-empty string. |
| AnswerRoute.SystemPrompt | app/api/answer/route.ts:48-50 | A truthy topic is interpolated into the template, and the prompt throws what the topic's conversion throws. Otherwise the default prompt is used. |
| AnswerRoute.PromptDeterminesTopic | app/api/answer/route.ts:48-49 | Two truthy topics that give the same prompt have the same rendered text, or throw the same value. Topics with the same text, such as the number 5 and the string `"5"`, do give the same prompt. |
| AnswerRoute.FirstContent | app/api/answer/route.ts:78 | When there is a first choice with a message, the result is that message's content. With no choice, or a first choice without a message, there is none. |
| AnswerRoute.AnswerText | app/api/answer/route.ts:77-78 | The answer is never empty. It is the content whenever that is a non-empty string, and it is `No answer generated` exactly when the content is missing, empty or that text itself. |
| AnswerRoute.ErrorMessage | app/api/answer/route.ts:85 | An `Error` surfaces its message, anything else `Failed to get answer`. |
| AnswerRoute.ErrorResponse | app/api/answer/route.ts:83-88 | The error response has status 500 and an error body carrying `ErrorMessage` of the caught value. |
| AnswerRoute.Advances | app/api/answer/route.ts:41-45 | Definition, no contract: the request was read and its question passes validation, so the handler reaches `getNextApiKey`. |
| AnswerRoute.Respond | app/api/answer/route.ts:36-90 | Status 500 goes exactly with an error body and status 200 exactly with an answer body. An answer is never empty. A request that fails validation always gets an error. A throwing topic conversion and a throwing completion call both go to the `catch`'s error response. |
| AnswerRoute.InvalidQuestionRejected | app/api/answer/route.ts:41-88 | A missing, falsy or non-string question gives status 500 with `Invalid question provided.`, and does not advance the key. |
| AnswerRoute.CompletedAnswered | app/api/answer/route.ts:45-80 | A valid question whose prompt can be built, with a completion, gives status 200 and the answer text of the first choice's content. |
| AnswerRoute.UnreadableReported | app/api/answer/route.ts:37-88 | A request that cannot be read gives status 500 with the message of the `Error` thrown, and takes no key. |
| AnswerRoute.FailureReported | app/api/answer/route.ts:58-88 | A value thrown by the completion call gives status 500, with the error's message or `Failed to get answer`. |
| AnswerRoute.TopicConversionReported | app/api/answer/route.ts:45-88 | A valid question whose truthy topic cannot be turned into text gives status 500 with the message of what the conversion threw, and the key has already been taken. |
| AnswerRoute.KeysFrom | app/api/answer/route.ts:29-33 | The keys handed out by `n` consecutive calls: `n` keys. |
| AnswerRoute.FiveCallsEachKeyOnce | app/api/answer/route.ts:18-33 | Any five consecutive calls hand out each of the five keys exactly once, as multisets. |
| AnswerRoute.KeyRotation.Valid | app/api/answer/route.ts:18-31 | Definition, no contract: five keys, and the index lies in `[0, 5)` and equals the call count modulo five. |
| AnswerRoute.KeyRotation.constructor | app/api/answer/route.ts:18-26 | The rotation starts at index 0 with the five given keys. |
| AnswerRoute.KeyRotation.GetNextApiKey | app/api/answer/route.ts:29-33 | Hands out the key at the old index and moves the index to old + 1 modulo 5, so the index stays in range. The k-th call from the start hands out key k modulo 5. |
| AnswerRoute.KeyRotation.NextKeys | app/api/answer/route.ts:29-33 | `n` calls of `getNextApiKey` in a row hand out `KeysFrom` the old call count, and the call count grows by `n`. |
| AnswerRoute.KeyRotation.FiveNextKeys | app/api/answer/route.ts:18-33 | Five calls in a row hand out each of the five keys exactly once, as multisets. |
| AnswerRoute.KeyRotation.Post | app/api/answer/route.ts:36-90 | The response is `Respond` with the key at the old index. The index moves on by one exactly when the question passes validation, also when the prompt or the completion call then throws. |

## Left out

- The JSX markup, the Tailwind class strings around the colour, and the card
  components are out of scope. A card is a record of key, title, colour and code.
- `console.error` in the `catch` block is I/O, so it is left out.
- `trim`, `toLowerCase` and `toUpperCase` cover ASCII only. Non-ASCII white
  space and case mappings are not modelled.
- The completion service is a parameter of the model: a function from key,
  system prompt and question to completed choices or a thrown value. The
  `Groq` client, the network call, the model name and the sampling parameters
  are left out.
- Reading the request is left out. A request is either unreadable or has a
  question and a topic. It is unreadable when `req.json()` throws, on a body
  that is not JSON, or when the destructuring throws, on the JSON value `null`.
  Its message is that of the `Error` thrown. A JSON number, string, boolean or
  array has no `question` or `topic` property, so it is a request whose
  question and topic are both `undefined`, and it gets
  `Invalid question provided.`.
- `AnswerRoute.Display`: which JSON values make `${topic}` throw, and the text
  of the `TypeError` message, are not derived from JSON. They depend on the
  engine's conversion rules, so each other value carries the outcome of its
  conversion.
- Building a `Response` object is left out. A response is a status and a JSON
  body.
- Concurrent requests sharing `currentKeyIndex` are not modelled. Requests are
  handled one at a time.
- The five key strings are not reproduced. `KeyRotation` takes five opaque keys.
- `AnswerRoute.SystemPrompt`: the default prompt is kept as its own literal, as
  in the source. The model does not prove that it equals the template filled
  with `Java, HTML, CSS, JavaScript`.
- `CodeDisplay.ClassText`: the text a template literal makes of an inherited
  member other than `__proto__` is not modelled. No label reaches one
  (`LanguageColor.OnlyProtoReachable`), and the text of a built-in function
  depends on the engine.
- A message content that is truthy but not a string is not modelled. The
  content is an optional string.
- app/page.tsx is not part of this model: the form, the `fetch` and the PDF
  export.

## Findings

| source | as written | input that shows it | evidently intended | confidence | as-written member | corrected member |
|---|---|---|---|---|---|---|
| app/Code.tsx:83 | `colorMap[formattedLang]` indexes an ordinary object literal, so it also finds members inherited from `Object.prototype`. `__proto__` is the only one a title-cased label can equal. | A section labelled `__proto__:` or `__PROTO__:`. The lookup returns the prototype object, which is truthy, so the fallback to grey does not apply. The template literal at line 92 turns the object into the text `[object Object]`, so the title's class is `text-lg font-mono [object Object]` instead of a colour token. | Only the table's own entries are colours; every other label is grey. | not executed | LanguageColor.GetLanguageColorAsWritten (shown by LanguageColor.ProtoLabelLeaks) | LanguageColor.GetLanguageColor |

`CodeDisplay.Render` keeps the lookup as written, as the component calls it, so
a card's class shows the finding. `CodeDisplay.RenderedColor` states that every
other label gets the corrected colour.
