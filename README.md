# memo-translate: translation normaliser, popup export and sentence analysis

This Dafny project models three pieces of memo-translate. memo-translate is a
browser extension that translates selected text. It saves words and
sentences to two lists and exports them as Anki flashcards. Its backend asks
a chat model for a grammar analysis of a sentence.

- `background.dfy` (module `Background`) models the extension's service worker:
  - the query string `translateText` sends to the public translation endpoint;
  - the `API Error: <status>` rejection for a non-OK status;
  - the normaliser that turns the endpoint's positional nested arrays into
    one translation record (translation, phonetic, dictionary, definitions,
    examples);
  - the `{success, data | error}` reply of the message listener.

  The HTTP exchange is an input (`Fetched`). JavaScript values are the
  `Json` datatype of `json.dfy`, which also models truthiness and what
  `v[i]` reads or throws.
- `popup.dfy` (module `Popup`) models the popup. The `Popup` class holds the
  current tab and the extension's local storage, and covers:
  - switching tabs, clearing a list and removing one item;
  - `escapeHtml`;
  - the flashcard front and back;
  - the `clean` of the export and the CSV file it assembles.

  Each `+=` loop of the export is a method proved equal to a function that
  specifies it.
- `openai.dfy` (module `OpenAi`) models the backend's `analyzeSentence`:
  - the two-message chat request;
  - the safe-cast chain down to the reply text;
  - the stripping of a Markdown code fence;
  - the fallback record returned instead of any exception.

  The HTTP call and the JSON decoder are inputs.
- `text.dfy` (module `Text`) holds the string operations these pieces share:
  replacement, trimming, decimal printing, lines and joining.
- `wrappers.dfy` holds `Option` and `Result`.

## Model

| member | source | states |
|---|---|---|
| Background.QueryParamsCarryText | memo-translate-frontend/background.js:15-21 | the text travels exactly once, under `q`; the data types `t, bd, rm, md, ex` travel under `dt` in that order; `client=gtx`, `sl=auto`, `tl=zh-CN` each appear once |
| Background.BuildQuery | memo-translate-frontend/background.js:15-21 | the appending loop yields exactly the query those properties are proved about |
| Background.ApiErrorMessageNamesStatus | memo-translate-frontend/background.js:25-27 | the rejection message starts with `API Error: ` and the HTTP status can be read back from the digits after it |
| Json.Index | memo-translate-frontend/background.js:42-46 | `v[i]` throws exactly on null/undefined; inside an array it is the element and past the end it is `undefined` |
| Background.Get | memo-translate-frontend/background.js:52-56 | an indexed read in the normaliser fails exactly when the value is null/undefined, always with a TypeError, and otherwise agrees with `v[i]` |
| Background.Piece | memo-translate-frontend/background.js:36 | a null/undefined segment throws a TypeError; otherwise a segment contributes its first element when that is truthy and `""` when it is falsy |
| Background.Concatenation | memo-translate-frontend/background.js:34-37 | the translation fails only with a TypeError, and when it succeeds it is the string first elements of the segments joined in order |
| Background.ConcatenationAppend | memo-translate-frontend/background.js:35-37 | the translation of two runs of segments is the two translations joined, and the first failure wins |
| Background.ConcatenationFailsIffNullish | memo-translate-frontend/background.js:35-37 | the translation step throws if and only if some segment is null or undefined |
| Background.SkipsFalsySegment | memo-translate-frontend/background.js:36 | a segment whose first element is falsy leaves the translation unchanged |
| Background.AccumulateTranslated | memo-translate-frontend/background.js:31-37 | the `+=` loop over the segments gives exactly the concatenation, or the same TypeError |
| Background.Candidate | memo-translate-frontend/background.js:45-46 | slot `i` gives a candidate if and only if it holds a string with a non-whitespace character, and the candidate is that string |
| Background.Phonetic | memo-translate-frontend/background.js:39-47 | the phonetic is `""` unless the last segment is truthy with length at least 3; then it is slot 2's candidate, or else slot 3's candidate, or else `""`; a non-empty result is an untrimmed, non-blank string from slot 2 or 3 |
| Background.TranslatedAndPhonetic | memo-translate-frontend/background.js:30-48 | translation and phonetic succeed if and only if there is no truthy segment list, or the list is an array whose concatenation succeeds; failures are TypeErrors |
| Background.MapAll | memo-translate-frontend/background.js:53-58 | `map` with a throwing callback succeeds iff every callback succeeds, and then keeps length and order; it fails only with a TypeError when the callback does |
| Background.SliceTo | memo-translate-frontend/background.js:56 | `slice(0, n)` is a prefix of length `min(n, length)` of an array or string and throws on anything else |
| Background.Firsts | memo-translate-frontend/background.js:67 | `map(def => def[0])` succeeds if and only if the value is an array without null/undefined elements; it then keeps the length and reads each element's first slot; failures are TypeErrors |
| Background.Dictionary | memo-translate-frontend/background.js:50-59 | a falsy position 1 gives `null`; a truthy non-array throws; an array succeeds if and only if every entry is non-null with sliceable terms, giving one entry per element with its part of speech and at most the first five terms; failures are TypeErrors |
| Background.Definitions | memo-translate-frontend/background.js:61-70 | a falsy position 12 gives `null`; a truthy non-array throws; an array succeeds if and only if every entry is non-null with a definition list that is an array without null items, giving one group per element with the first slot of at most three definitions; failures are TypeErrors |
| Background.DefinitionsReadEveryDefinition | memo-translate-frontend/background.js:67 | every definition is read before three are kept, so a null fourth definition still throws |
| Background.Examples | memo-translate-frontend/background.js:72-76 | `null` unless both position 13 and its first element are truthy; then it succeeds if and only if that element is an array without null items, giving the first slots of at most three examples; failures are TypeErrors |
| Background.Normalize | memo-translate-frontend/background.js:30-85 | the record resolves if and only if the response is not null/undefined and translation, dictionary, definitions and examples can all be read; it carries the original text; every failure is a TypeError |
| Background.NormalizeNullDataThrows | memo-translate-frontend/background.js:34-52 | a null response throws, because the read of `data[1]` is unguarded |
| Background.NormalizeSegmentsOnly | memo-translate-frontend/background.js:30-85 | a response holding only a segment list without null segments resolves, with the concatenated translation, the phonetic of the last segment and `null` dictionary, definitions and examples |
| Background.NormalizeWithoutSegments | memo-translate-frontend/background.js:31-34 | without a truthy segment list, translation and phonetic are both `""` |
| Background.NormalizeWithSegments | memo-translate-frontend/background.js:34-47 | with a segment list, the translation is its concatenation and the phonetic comes from its last segment |
| Background.NormalizeOptionalFields | memo-translate-frontend/background.js:50-84 | dictionary, definitions and examples come from positions 1, 12 and 13; dictionary and definitions are `null` exactly when their position is falsy |
| Background.Translate | memo-translate-frontend/background.js:23-28 | a network failure rejects with its message; a non-OK status rejects with `ApiError(status)` before the body is decoded; an undecodable body rejects with its message; a decoded body gives the normalised record |
| Background.TranslateText | memo-translate-frontend/background.js:14-90 | sends the query above; a network or decoding failure rejects with its message; a non-OK status rejects with `ApiError(status)`; otherwise resolves with the normalised record |
| Background.OnTranslate | memo-translate-frontend/background.js:5-12 | a network failure, a non-OK status (`API Error: <status>`) and an undecodable body each give a failure reply carrying that message; for a decoded body the reply succeeds iff normalisation does, and then carries the normalised record |
| Text.TrimEmptyIffBlank | memo-translate-frontend/background.js:45-46 | a string trims to empty if and only if all its characters are whitespace |
| Text.ParseDecimalInverts | memo-translate-frontend/background.js:26 | the decimal printing of a status parses back to the status |
| Popup.StorageKey | memo-translate-frontend/popup.js:37 | the words tab and only it uses `memoWords`; the sentences tab and only it uses `memoSentences` |
| Popup.EscapeHtml | memo-translate-frontend/popup.js:171-179 | empty text comes back as it is; escaped text holds no `<`, `>`, `"` or `'` |
| Popup.EscapeHtmlRoundTrip | memo-translate-frontend/popup.js:173-178 | decoding the five entities gives back the original text, so escaping loses nothing |
| Popup.EscapeHtmlAmpersandsBeginEntities | memo-translate-frontend/popup.js:173-178 | every `&` in escaped text begins one of the five entities, because `&` is replaced first |
| Popup.Clean | memo-translate-frontend/popup.js:102 | a cleaned field holds no tab and no newline |
| Popup.CleanLength | memo-translate-frontend/popup.js:102 | cleaning adds three characters per newline and nothing else |
| Popup.CleanIdempotent | memo-translate-frontend/popup.js:102 | cleaning a cleaned field changes nothing |
| Popup.StripBold | memo-translate-frontend/popup.js:88 | removing bold tags never lengthens an example |
| Popup.StripBoldWithoutMarkup | memo-translate-frontend/popup.js:88 | an example without `<` is exported unchanged |
| Popup.StripBoldRemovesAllTags | memo-translate-frontend/popup.js:88 | when every `<` opens `<b>` or `</b>`, no `<` survives |
| Popup.StripBoldDropsTag | memo-translate-frontend/popup.js:88 | before a `<b>` or `</b>` tag, text without `<` survives and the tag alone is removed: `x + tag + y` becomes `x` followed by the stripped `y` |
| Popup.StripBoldIsSinglePass | memo-translate-frontend/popup.js:88 | the replacement is one scan: `<<b>b>` becomes `<b>`, which a second pass would remove |
| Popup.FrontShowsPhoneticOnWordsTab | memo-translate-frontend/popup.js:51-54 | the front is the bolded original, and it has the bracketed phonetic appended exactly when the tab is the words tab and the phonetic is non-empty |
| Popup.BackLayout | memo-translate-frontend/popup.js:57-100 | the back always ends with the source link; on the words tab it opens with the dictionary block, on the sentences tab with the translation block |
| Popup.SentenceBackUsesOnlyTranslation | memo-translate-frontend/popup.js:94-100 | on the sentences tab the back depends only on the translation and the source URL, and the front only on the original text |
| Popup.WordBackIgnoresTranslationWithDictionary | memo-translate-frontend/popup.js:62-70 | on the words tab a dictionary, even an empty one, replaces the translation on the back |
| Popup.BuildDictionaryPart | memo-translate-frontend/popup.js:62-70 | the `+=` loop writes one row per dictionary entry inside the block, or the translation block when there is no dictionary |
| Popup.BuildDefGroup | memo-translate-frontend/popup.js:75-80 | the inner `+=` loop writes the part of speech and then one list item per definition, in order |
| Popup.BuildDefinitionsPart | memo-translate-frontend/popup.js:72-83 | the outer `+=` loop writes one group per definition entry, and nothing when there are none |
| Popup.BuildExamplesPart | memo-translate-frontend/popup.js:85-92 | the `+=` loop writes one bullet line per example, with bold tags removed, and nothing when there are none |
| Popup.BuildBack | memo-translate-frontend/popup.js:57-100 | the back is the words-tab blocks or the sentence block, followed by the source link on both tabs |
| Popup.RowLineHasOneTab | memo-translate-frontend/popup.js:102-103 | a data line holds exactly one tab, between front and back, and no newline |
| Popup.Csv | memo-translate-frontend/popup.js:46-104 | the file starts with the three-line header, and is exactly the header for an empty list |
| Popup.CsvLines | memo-translate-frontend/popup.js:46-104 | the file splits into the three header lines and then exactly one line per item, in list order, each with one tab |
| Popup.BuildCsv | memo-translate-frontend/popup.js:46-104 | the `forEach`/`+=` loop yields exactly the file those properties are proved about |
| Popup.Spliced | memo-translate-frontend/popup.js:166 | `splice(index, 1)` past the end changes nothing; in range it keeps the items before `index` and shifts the items after it down by one |
| Popup.SplicedRemovesOne | memo-translate-frontend/popup.js:166 | `splice(index, 1)` in range drops exactly that item and keeps the others in order (as a multiset: the old list is the new one plus the removed item) |
| Popup.Popup.constructor | memo-translate-frontend/popup.js:2 | the popup opens on the words tab over the stored lists |
| Popup.Popup.SwitchTab | memo-translate-frontend/popup.js:14-23 | the tab becomes the chosen one and storage is untouched |
| Popup.Popup.ClearAll | memo-translate-frontend/popup.js:25-32 | after confirmation only the current tab's list becomes empty; without confirmation nothing changes |
| Popup.Popup.RemoveItem | memo-translate-frontend/popup.js:162-169 | only the current tab's list changes, and it becomes the spliced list (a list never saved reads as empty) |
| Popup.Popup.ExportToAnki | memo-translate-frontend/popup.js:36-115 | no file iff the current list is empty; otherwise `memo_<tab>_export.csv` holding the file above for the current list |
| OpenAi.Request | memo-translate-backend/src/main/kotlin/com/shengyu/memo/service/OpenAiService.kt:27-45 | the request names the model and holds two messages: the fixed system prompt, then a user message from which the text reads back unchanged |
| OpenAi.RequestInjective | memo-translate-backend/src/main/kotlin/com/shengyu/memo/service/OpenAiService.kt:42 | different texts give different requests |
| OpenAi.ExtractContent | memo-translate-backend/src/main/kotlin/com/shengyu/memo/service/OpenAiService.kt:56-59 | the reply text is `s` if and only if `choices[0].message.content` is the string `s` with every link of the right type; otherwise the failure is `Empty AI response` |
| Text.Trim | memo-translate-backend/src/main/kotlin/com/shengyu/memo/service/OpenAiService.kt:61 | trimmed text has no whitespace at either end |
| OpenAi.StripFences | memo-translate-backend/src/main/kotlin/com/shengyu/memo/service/OpenAiService.kt:61-63 | the cleaned text has no Kotlin whitespace at either end |
| OpenAi.StripFencesWithoutFences | memo-translate-backend/src/main/kotlin/com/shengyu/memo/service/OpenAiService.kt:61-63 | text that neither starts nor ends with a fence is only trimmed |
| OpenAi.StripFencesRoundTrip | memo-translate-backend/src/main/kotlin/com/shengyu/memo/service/OpenAiService.kt:61-63 | trimmed JSON wrapped in a fenced `json` block on lines of its own comes back unchanged |
| OpenAi.StripOneFencePair | memo-translate-backend/src/main/kotlin/com/shengyu/memo/service/OpenAiService.kt:61-63 | around text without whitespace at its ends, exactly one plain fence pair is removed, unless the opening fence and the text together read as a `json` fence |
| OpenAi.StripFencesNotIdempotent | memo-translate-backend/src/main/kotlin/com/shengyu/memo/service/OpenAiService.kt:61-63 | only one fence is removed at each end, so a doubly fenced text needs two passes |
| OpenAi.Fallback | memo-translate-backend/src/main/kotlin/com/shengyu/memo/service/OpenAiService.kt:70-74 | the fallback is recognisable (failure prefix, the single phrase `error`, the configuration tip) and its grammar names the exception message after the prefix (`null` for none) |
| OpenAi.AnalyzeSentence | memo-translate-backend/src/main/kotlin/com/shengyu/memo/service/OpenAiService.kt:47-75 | an exception from the call gives the fallback naming that exception's message |
| OpenAi.AnalyzeSentenceDecodes | memo-translate-backend/src/main/kotlin/com/shengyu/memo/service/OpenAiService.kt:47-67 | when the call, the extraction and the decoding succeed, the analysis is the decoder's value for the stripped reply text |
| OpenAi.AnalyzeSentenceDecodeFails | memo-translate-backend/src/main/kotlin/com/shengyu/memo/service/OpenAiService.kt:67-75 | a decoder failure on the stripped reply text gives the fallback naming the decoder's message |
| OpenAi.AnalyzeSentenceNeverFails | memo-translate-backend/src/main/kotlin/com/shengyu/memo/service/OpenAiService.kt:47-75 | the answer is always either the decoded stripped reply text or a fallback; no exception escapes |
| OpenAi.AnalyzeSentenceWithoutContent | memo-translate-backend/src/main/kotlin/com/shengyu/memo/service/OpenAiService.kt:56-75 | a response without reply text gives the fallback naming `Empty AI response`, whatever the decoder does |

## Left out

- HTTP transport: `fetch`, the JSON body decoding, the REST client and the chat model's JSON decoder are inputs (`Fetched`, `AiCall`, `decode`), not models.
- URL building: the query is modelled as its ordered (name, value) pairs, not as a percent-encoded URL string.
- DOM, rendering and `loadItems` (popup.js:118-160): the list markup, the event wiring and the locale date are not modelled. Their only logic is the `escapeHtml` modelled above.
- Browser APIs: `chrome.storage` callbacks are synchronous updates of the `storage` map, and `confirm` is the `confirmed` parameter. The `alert` on an empty export is the `None` result. The object URL, the link element and the download click are the `Download` value.
- Logging and `console.error` in both files carry no behaviour and are left out. The same goes for the request's sampling temperature (0.7), which is a constant the model does not read.
- Background.Piece: JavaScript's string conversion of a truthy non-string segment text is not modelled; a precondition requires such texts to be strings.
- Background.TranslateText: a decoded response is taken to be well typed in the same sense (`WellTypedResponse`).
- Json.LengthAtLeast: an object's `length` counts only when it is a number; JavaScript's coercion of other `length` values is not modelled.
- Strings are sequences of Unicode scalar values, not UTF-16 code units. Surrogate pairs in `slice` and `v[i]` on strings are not modelled.
- OpenAi.AnalyzeSentence: the JVM's exception message texts are not modelled. A failed call, a null response body and an empty body are all `Threw` with an optional message.
- OpenAi.AnalyzeResponse: the declaration of `AnalyzeResponse` is not part of this model. Its three fields are taken from the constructor call at OpenAiService.kt:70-74.
- Popup.StoredItem: only the fields the export reads are modelled, with string-typed fields. The timestamp and page title shown by `loadItems` are left out, as is the stringification of non-string field values.
- Popup.Popup.ExportToAnki: the typed stored item also leaves out two TypeErrors that abort the export so that no file is produced: `ex.replace` on an example that is not a string (popup.js:88), and `d.terms.join` on terms that are not an array (popup.js:65). The normaliser can produce both: terms sliced from a string (`Background.SliceTo`) and an undefined example (`Background.Examples`).
- Background.OnTranslate: the failure reply for a TypeError carries the JavaScript engine's wording of that error, which is not modelled (`None`).
- Popup.Popup.RemoveItem: the index is a natural number. The index from a rendered delete button is never negative, and `splice` with a negative index is not modelled.
- Streaming replies, reassembly of sectioned answers and a fallback between translation providers appear in the general description of the system but in none of the modelled source files. They are not modelled.
- Where the general description of the system and the code differ, the model follows the code:
  - a missing phonetic is `""`, not `null`;
  - `<b>` tags are removed from examples only at export time, not during normalisation;
  - CSV fields are cleaned of tabs and newlines but not HTML-escaped;
  - the record carries no `source` field.
