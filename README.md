# luwrite-ai writing assistant — verified model

This is a Dafny model of the core of the writing-assistant component `App` in
`src/App.jsx`. The component is a text area whose contents drive three things:

- a live word count;
- a tone label (Positive, Negative or Neutral), set by keyword tests;
- up to four writing suggestions, gated by length, word-count and keyword
  thresholds.

Three buttons send the text to a text-generation service (Gemini), asking it
to expand, shorten or formalize the text. The reply is shown as the "rewrite"
and can be copied to the clipboard.

Modules:

- `JsText` (`js_text.dfy`) holds the JavaScript string primitives the component
  relies on:
  - the `\s` class, as the ECMAScript WhiteSpace and LineTerminator code points;
  - `trim`, `split(/\s+/)`, `filter(Boolean)` and ASCII `toLowerCase`;
  - `length`, counted in UTF-16 code units;
  - `RegExp.prototype.test` for an alternation of literal words, as a substring
    search proved equal to "some word occurs".
- `Words` (`words.dfy`) holds `countWords`. It is proved equal to an
  independent count of the maximal non-space runs.
- `Analyzer` (`analyzer.dfy`) holds the real-time tone and suggestion step.
  - `ToneOf` and `Suggestions` specify it.
  - The method `Analyze` follows the effect's own steps: the tone variable is
    reassigned by two tests and the list grows by four guarded pushes.
  - `Analyze` is proved to agree with `ToneOf` and `Suggestions`.
- `Rewrite` (`rewrite.dfy`) holds three things:
  - the prompt template chosen by mode;
  - the result text shown for each way a request can end;
  - the copy-source choice `improved || text`.
- `WritingApp` (`app.dfy`) holds the component's state as a class:
  - the fields `text`, `tone`, `suggestions`, `improved` and `loading`;
  - the invariant that tone and suggestions are those of the current text;
  - the rewrite handler, split at its one `await` into `BeginImprove` and
    `CompleteImprove`.

The empty text gets `["Consider adding more detail."]`: its length 0 is below
30, and the guard of that push has no non-empty test (`src/App.jsx:34`);
`Analyzer.EmptyText` proves it.

## Model

| member | source | states |
|---|---|---|
| JsText.IsSpace | src/App.jsx:15 | the `\s` class used by `trim` and `split`: every whitespace character is one UTF-16 code unit and is unchanged by lower-casing |
| JsText.AsciiLower | src/App.jsx:27 | `toLowerCase` keeps the length and lower-cases each character on its own: capitals A-Z become their small letters and every other character is kept |
| JsText.JsLength | src/App.jsx:34 | `text.length` counts UTF-16 code units: between the number of characters and twice that, equal to it when every character is in the Basic Multilingual Plane |
| JsText.Trim | src/App.jsx:47 | `trim` yields a contiguous slice of the text with only whitespace before and after it; the slice is empty exactly for empty or all-whitespace text, and otherwise starts and ends with a non-space character |
| JsText.TrimSlice | src/App.jsx:15 | stripping a maximal whitespace prefix and then a whitespace suffix leaves a slice of the text with only whitespace around it, empty exactly for blank text |
| JsText.DropSpaces | src/App.jsx:15 | the left half of `trim`: never longer than the text, and starts with a non-space character when non-empty |
| JsText.DropSpacesSuffix | src/App.jsx:15 | what the left half of `trim` keeps is a suffix of the text, and everything it drops is whitespace |
| JsText.TrimEnd | src/App.jsx:15 | the right half of `trim`: never longer than the text, and ends with a non-space character when non-empty |
| JsText.TrimEndPrefix | src/App.jsx:15 | what the right half of `trim` keeps is a prefix of the text, and everything it drops is whitespace |
| JsText.LeadingWord | src/App.jsx:15 | the first piece of `split(/\s+/)` is space-free and followed by a space or the end of the text |
| JsText.LeadingWordPrefix | src/App.jsx:15 | the first piece of `split(/\s+/)` is a prefix of the text |
| JsText.Split | src/App.jsx:15 | `split(/\s+/)` returns at least one piece, `[""]` for the empty string; no piece contains whitespace, only the first and last may be empty, the first is non-empty when the text starts with a non-space, and interleaving the pieces with non-empty whitespace runs gives back the text |
| JsText.SplitCons | src/App.jsx:15 | the leading word, the whitespace run after it and the split of the rest form a split of the whole text |
| JsText.NonEmpty | src/App.jsx:15 | `filter(Boolean)` keeps every non-empty piece and only non-empty pieces, each taken from the input, and never more than there were |
| JsText.NonEmptyKeepsAll | src/App.jsx:15 | `filter(Boolean)` keeps each non-empty piece exactly as often as it occurs and drops every empty one |
| JsText.Contains | src/App.jsx:29 | a test of one literal word holds exactly when the word occurs somewhere in the text |
| JsText.ContainsAny | src/App.jsx:29-30 | a test of an alternation of words holds exactly when one of the alternatives occurs in the text |
| Words.CountWords | src/App.jsx:15 | `countWords` equals the number of maximal runs of non-space characters |
| Words.CountWordsZero | src/App.jsx:15 | the word count is 0 exactly for empty or whitespace-only text |
| Words.SplitCountsRuns | src/App.jsx:15 | the non-empty pieces of `split(/\s+/)` are as many as the maximal non-space runs |
| Words.TrimKeepsRuns | src/App.jsx:15 | trimming does not change the number of words |
| Words.RunsLeadingWord | src/App.jsx:15 | a non-empty leading word is exactly one run, and the count continues after it |
| Analyzer.ToneRules | src/App.jsx:27-30 | Positive iff a positive keyword occurs in the lower-cased text; Negative iff a negative one occurs and no positive one; Neutral iff neither |
| Analyzer.AnalyzeTone | src/App.jsx:28-31 | the two successive assignments to the tone variable yield `ToneOf` of the text |
| Analyzer.BuildSuggestions | src/App.jsx:33-40 | the list built from the text's length, reasoning test and word count is `Suggestions` of the text |
| Analyzer.PushSuggestions | src/App.jsx:33-39 | the four guarded pushes, run on given measurements, list exactly the messages of the rules whose guards pass, in catalog order |
| Analyzer.Analyze | src/App.jsx:26-40 | the effect's tone and list are `ToneOf` and `Suggestions` of the text |
| Analyzer.Render | src/App.jsx:34-39 | each rule in the list contributes its message, in order |
| Analyzer.ChosenSnoc | src/App.jsx:33-39 | evaluating one more guard extends the list by that rule exactly when the rule applies |
| Analyzer.ChosenMember | src/App.jsx:33-39 | a rule is listed exactly when it is evaluated and applies |
| Analyzer.ChosenRanked | src/App.jsx:33-39 | listing keeps the evaluation order and never adds entries |
| Analyzer.MessageRankOf | src/App.jsx:34-39 | the four messages are distinct, each identifying its rule |
| Analyzer.SuggestedIff | src/App.jsx:34-39 | a message is listed exactly when its rule's condition holds for the text's length, word count and reasoning test |
| Analyzer.RenderedIff | src/App.jsx:34-39 | for any length, word count and reasoning test, a message is listed exactly when its rule's condition holds |
| Analyzer.ChoiceOrdered | src/App.jsx:33-40 | for any length, word count and reasoning test, the list has at most four entries, in the fixed order, with no duplicates |
| Analyzer.RenderRanked | src/App.jsx:34-39 | rules pushed in increasing rank give distinct messages of increasing rank |
| Analyzer.ChosenAtZero | src/App.jsx:34-39 | with length 0 and no words only the "more detail" guard passes |
| Analyzer.NothingInEmpty | src/App.jsx:29-30 | no alternation of non-empty words matches the empty text |
| Analyzer.SuggestionConditions | src/App.jsx:34-39 | "more detail" iff length < 30; "add reasoning" iff length > 40 and no because/since/therefore; "split" iff more than 60 words; "too brief" iff fewer than 5 words and the text is non-empty |
| Analyzer.ExclusiveSuggestions | src/App.jsx:34-39 | "more detail" never appears with "add reasoning", and "split" never with "too brief" |
| Analyzer.SuggestionsOrdered | src/App.jsx:33-40 | at most four entries, each one of the four messages, in the fixed order, with no duplicates |
| Analyzer.EmptyText | src/App.jsx:27-39 | the empty text is Neutral and gets exactly the list ["Consider adding more detail."] |
| Analyzer.EmptyTextNeutral | src/App.jsx:27-30 | no keyword occurs in the empty text, so its tone is Neutral |
| Rewrite.Prompt | src/App.jsx:50-55 | the prompt is the mode's template immediately followed by the text verbatim: the expand template for "expand", the shorten template for "shorten", the professional-tone template for every other mode |
| Rewrite.PromptTemplate | src/App.jsx:50-55 | the prompt starts with the expand template exactly for "expand", with the shorten template exactly for "shorten", and with the professional-tone template exactly for every other mode |
| Rewrite.ImprovedText | src/App.jsx:59-61 | the result is the reply when it is non-empty, "No response" for an empty reply and the warning on failure; it is never empty |
| Rewrite.CopySource | src/App.jsx:70 | the copy source is the rewrite when there is one, otherwise the text; it is empty only when both are |
| Rewrite.CopyAfterRewrite | src/App.jsx:59-61 | after any finished request the copy source is the rewrite, not the input |
| WritingApp.App.constructor | src/App.jsx:18-22 | mounting starts from the stored text with no rewrite and not loading; tone and suggestions are those of the text |
| WritingApp.App.SetText | src/App.jsx:26-42 | editing the text re-runs the analysis, so tone and suggestions stay those of the text; the rewrite state is untouched |
| WritingApp.App.BeginImprove | src/App.jsx:47-55 | a blank text sends nothing and leaves `loading` as it was; otherwise `loading` is set and the prompt for the mode is sent |
| WritingApp.App.CompleteImprove | src/App.jsx:57-63 | after the call ends the result is stored and `loading` is cleared |
| WritingApp.App.Improve | src/App.jsx:47-63 | a blank text changes nothing; otherwise the mode's prompt is sent, `loading` ends false, the result is the reply, "No response" or the warning, and the copy button then copies that result; the text, tone and suggestions are never touched |

## Left out

- The page markup, styling, icons and `TONE_COLORS`: presentation only.
- `ThemeToggle` (`src/app/components/ThemeToggle.jsx`): the colour theme has no bearing on the text logic.
- Persistence in `localStorage`. The stored text is the constructor's `initialText` parameter, and the write-back on every change is not modelled.
- The state before the first effect run is not modelled. The constructor gives the state after the mount effect has analysed the initial text.
- The Gemini client: model selection, the network request and reading the reply. A request's end is the parameter `Outcome`, which is either the reply text or a failure for any thrown exception. The API key is not modelled.
- Concurrency between overlapping requests. A reply that lands after the text has changed is not modelled. `Improve` runs one request to its end, and the prompt uses the text current when the request starts.
- The `copied` flag, the clipboard write and the 1.5-second timer: I/O and timing. Only the copy source's choice is modelled.
- The disabled state of the buttons (`loading || !text.trim()`). This is a UI guard in front of `Improve`, which itself handles a blank text.
- JsText.NonEmpty: its contract does not state that the kept pieces stay in their input order.
- JsText.AsciiLower: `toLowerCase` is modelled for ASCII letters only. For the nine keywords this is exact: no character outside ASCII lower-cases to a string that completes one of them.
- JsText.IsSpace: lone (unpaired) UTF-16 surrogates cannot occur in a Dafny string, so texts holding them are not modelled.
