# Translation telephone, modelled in Dafny

Translation telephone sends a text through a chain of languages. At each
hop the running text is translated into the next language of the chain.
The result is translated back into the start language, and the
back-translation is scored against the original by a word-set divergence
in [0, 100]. A streaming route emits one progress message per hop, then
exactly one complete or error message. The page reads that stream and keeps
five pieces of state. Two smaller pieces sit beside the engine:

- a route that builds the list of interface languages from the provider's
  target languages;
- a hook that loads interface strings through a versioned cache in local
  storage.

The model has one module per source file:

- `Types` (`types.dfy`): the data shapes and the 32-entry language catalog
  of `lib/types.ts`.
- `Deepl` (`deepl.dfy`): the pure helpers of `lib/deepl.ts`:
  - catalog name lookup;
  - normalisation of detected codes;
  - the divergence score;
  - the random chain generator, both as a specification function and as the
    source's loop.
- `ChainStream` (`chain_stream.dfy`): the `POST` handler of
  `app/api/translate-chain-stream/route.ts`:
  - validation;
  - start-language resolution;
  - chain choice;
  - the hop loop, as a method proved against a recursive run specification;
  - the `data: ...\n\n` framing of each message.
- `LanguageList` (`supported_languages.dfy`): the `GET` handler of
  `app/api/supported-languages/route.ts`:
  - code simplification and display names;
  - first-occurrence deduplication, as a loop over a `seen` set;
  - an in-place sort of an array by name.
- `UiTranslation` (`ui_translation.dfy`): `lib/useTranslation.ts`:
  - a `Storage` class for local storage, with the three cache helpers as its
    methods;
  - the key-filling loop of `translateStrings`;
  - the decision sequence of `loadTranslations`.
- `TelephoneApp` (`telephone_app.dfy`): the `App` class of
  `components/TranslationTelephoneApp.tsx`. Its fields are the component's
  state. Its handlers read chunk after chunk and line after line, and they
  are proved against reading functions. End-to-end lemmas connect the route's
  framing to what the page ends up showing.
- `Wrappers` and `Text`: Option/Result, and the string built-ins the source
  relies on: ASCII case mapping, JavaScript `\s` and `\w`, `trim`,
  `startsWith` and one-character `split`.

External effects are parameters:

- the DeepL translator is a `Provider` value holding two functions that
  answer `Ok` or `Err(message)`;
- `Math.random()` is a function from draw number to a real in [0, 1);
- `fetch` is a function from request body to outcome;
- `JSON.stringify` and `JSON.parse` are abstract functions. The end-to-end
  lemmas assume only that parsing gives back what was serialised, and that
  serialised text has no line break.

## Model

| member | source | states |
|---|---|---|
| Text.Trim | app/api/translate-chain-stream/route.ts:19-27 | the trimmed text is the input with its leading and trailing whitespace runs cut off: it agrees with the input character for character from the end of the leading run, only whitespace follows it, and it starts and ends with a non-whitespace character |
| Text.TrimKeepsNonBlank | app/api/translate-chain-stream/route.ts:19-27 | trimming removes whitespace only: the non-whitespace characters of the result are those of the input, in order |
| Text.TrimUnchanged | lib/deepl.ts:74 | text that neither starts nor ends with whitespace is its own trim |
| Text.JoinSplit | lib/deepl.ts:79-80 | splitting separator-free pieces joined by the separator gives back the pieces |
| Text.SplitJoin | components/TranslationTelephoneApp.tsx:69 | joining the pieces of `split` with the separator gives back the input |
| Text.SplitPiecesFree | components/TranslationTelephoneApp.tsx:69 | no piece of `split` contains the separator |
| Text.SplitPrefix | components/TranslationTelephoneApp.tsx:69 | a separator-free piece followed by the separator is exactly the first piece of the split |
| Types.CatalogCodesDistinct | lib/types.ts:33-66 | the catalog has 32 entries and no code occurs twice |
| Types.CatalogNamesNonEmpty | lib/types.ts:33-66 | every catalog entry has a non-empty name |
| Types.CatalogCodesNonEmpty | lib/types.ts:33-66 | no catalog code is the empty string |
| Deepl.FindFirstMatch | lib/deepl.ts:20 | `find` answers nothing exactly when no entry has the code, and otherwise the first entry that has it |
| Deepl.LanguageNameFromCatalog | lib/deepl.ts:19-22 | a catalog code gets its catalog name; a string that is not a catalog code is its own name |
| Deepl.KnownLanguageNames | lib/types.ts:34-45 | EN-US, DE and JA are named "English (US)", "German" and "Japanese" |
| Deepl.NormalizeDetectedCode | lib/deepl.ts:34-44 | the result has no lower-case ASCII letter; EN, PT and ZH map to EN-US, PT-BR and ZH-HANS; every other code comes back upper-cased |
| Deepl.NormalizeDetectedCodeIdempotent | lib/deepl.ts:34-44 | normalising twice gives the same code as normalising once |
| Deepl.NormalizationTargetsInCatalog | lib/deepl.ts:36-41 | the three mapped codes are catalog codes |
| Deepl.DetectLanguage | lib/deepl.ts:24-45 | detection succeeds exactly when the provider's does, with the normalised code; a failure carries the provider's message |
| Deepl.ReplaceSymbols | lib/deepl.ts:72 | length is kept; each character that is neither a word character nor whitespace becomes a space |
| Deepl.CollapseSpaces | lib/deepl.ts:73 | the result is empty exactly when the input is, and never longer than it |
| Deepl.CollapseShape | lib/deepl.ts:73 | the collapsed text keeps only spaces and non-whitespace characters of the input, never has two spaces in a row, and starts (ends) with a space exactly when the input starts (ends) with whitespace |
| Deepl.CollapseKeepsWord | lib/deepl.ts:73 | text without whitespace is unchanged |
| Deepl.CollapseRun | lib/deepl.ts:73 | a whitespace run in front of text that does not start with whitespace becomes exactly one space |
| Deepl.CollapseConcat | lib/deepl.ts:73 | collapsing a concatenation whose first part ends in a non-whitespace character collapses each part on its own |
| Deepl.CollapseKeepsNonBlank | lib/deepl.ts:73 | collapsing keeps every non-whitespace character of the input, in order |
| Deepl.CollapseSingleSpaced | lib/deepl.ts:73 | text whose only whitespace is single spaces is unchanged |
| Deepl.Normalize | lib/deepl.ts:69-75 | the normalised text holds only spaces and word characters that are not upper-case letters, has no space at either end and never two spaces in a row |
| Deepl.ReplacedNonBlank | lib/deepl.ts:72 | after symbols become spaces, the non-whitespace characters are exactly the word characters of the input, in order |
| Deepl.NormalizeKeepsWordChars | lib/deepl.ts:69-75 | the non-space characters of the normalised text are exactly the word characters of the lower-cased input, in order |
| Deepl.NormalizePlain | lib/deepl.ts:69-75 | text that already has the normalised shape is left unchanged |
| Deepl.NormalizeIdempotent | lib/deepl.ts:69-75 | normalising twice is normalising once |
| Deepl.WordsAreLowerWords | lib/deepl.ts:79-80 | every word of the normalised text consists of lower-case word characters |
| Deepl.MeaningfulWords | lib/deepl.ts:78-83 | every meaningful word has more than two characters, is not a stop word and is a lower-case word |
| Deepl.JoinPlainWords | lib/deepl.ts:69-75 | non-empty lower-case words joined by single spaces have the normalised shape |
| Deepl.WordsOfPlainWords | lib/deepl.ts:79-80 | the words of such a text are exactly the joined words, in order |
| Deepl.MeaningfulWordsOfPlainWords | lib/deepl.ts:78-83 | for a text of single-spaced lower-case words, the meaningful words are exactly those words longer than two characters that are not stop words |
| Deepl.MeaningfulWordsUpToCase | lib/deepl.ts:69-83 | the same holds for any text that lower-cases to such words |
| Deepl.RoundedDistance | lib/deepl.ts:102-105 | the result lies in [0, 100] and is 100·(1 − i/u) rounded to the nearest integer, halves up |
| Deepl.Score | lib/deepl.ts:88-105 | the score lies in [0, 100]; two empty sets score 0; exactly one empty set scores 100 |
| Deepl.Divergence | lib/deepl.ts:57-106 | the divergence lies in [0, 100]; 0 when neither text has a meaningful word; 100 when exactly one has none |
| Deepl.ScoreSelf | lib/deepl.ts:99-103 | a word set scores 0 against itself |
| Deepl.ScoreSymmetric | lib/deepl.ts:99-103 | the score does not depend on the order of the two sets |
| Deepl.ScoreDisjoint | lib/deepl.ts:99-103 | non-empty sets with no common word score 100 |
| Deepl.ScorePartial | lib/deepl.ts:99-103 | sets that share a word but differ score strictly between 0 and 100 when their union has fewer than 200 words |
| Deepl.ScoreIsRoundedJaccardDistance | lib/deepl.ts:98-105 | for non-empty sets the score is the rounded Jaccard distance as a percentage |
| Deepl.DivergenceSelf | lib/deepl.ts:57-106 | a text scores 0 against itself |
| Deepl.DivergenceSymmetric | lib/deepl.ts:57-106 | swapping original and back-translation does not change the score |
| Deepl.DivergenceCaseInsensitive | lib/deepl.ts:71 | texts that differ only in ASCII letter case score 0 |
| Deepl.DivergenceDisjoint | lib/deepl.ts:94-103 | texts whose non-empty meaningful sets share no word score 100 |
| Deepl.DivergencePartial | lib/deepl.ts:98-105 | texts that share a meaningful word but whose sets differ score strictly between 0 and 100 (union under 200 words) |
| Deepl.DivergenceIsRoundedJaccardDistance | lib/deepl.ts:98-105 | for texts with meaningful words the score is the rounded Jaccard distance of their word sets |
| Deepl.DivergenceEmpty | lib/deepl.ts:88-91 | the empty text has no meaningful word, and two empty texts score 0 |
| Deepl.FillerTextScoresAsEmpty | lib/deepl.ts:59-82 | a text made only of stop words and words of at most two characters scores like the empty text |
| Deepl.DivergenceIgnoresFillerWords | lib/deepl.ts:59-82 | adding stop words and words of at most two characters to a text of lower-case words, anywhere and any number of times, leaves its score against any text unchanged |
| Deepl.InsertFillerWord | lib/deepl.ts:59-82 | inserting one such filler word at any position leaves the score unchanged |
| Deepl.QuickBrownFoxAndDog | __tests__/lib/deepl.test.ts:34-40 | "The quick brown fox" and "The quick brown dog" have the meaningful words {quick, brown, fox} and {quick, brown, dog} and score exactly 50 |
| Deepl.FoxAgainstDog | lib/deepl.ts:94-103 | the one-word texts "fox" and "dog" have one meaningful word each, none shared, and score 100 |
| Deepl.Without | lib/deepl.ts:118 | the filter keeps exactly the codes different from the removed one |
| Deepl.WithoutDistinct | lib/deepl.ts:117-127 | removing a code that occurs once in a list without repeats leaves one entry fewer |
| Deepl.CatalogPoolSize | lib/deepl.ts:117-127 | removing any single code from the catalog leaves at least 31 codes |
| Deepl.InitialOptions | lib/deepl.ts:117-119 | the first pool has at least 31 catalog codes and excludes a given start language |
| Deepl.Options | lib/deepl.ts:117-127 | each pool has at least 31 catalog codes and excludes the code just chosen, or the start language before the first pick |
| Deepl.DrawIndex | lib/deepl.ts:122 | `Math.floor(r * n)` is a valid index into a pool of n codes |
| Deepl.RandomChain | lib/deepl.ts:109-131 | the chain has the requested length and only catalog codes, no code follows itself, and the first code is not the given start language |
| Deepl.GenerateRandomChain | lib/deepl.ts:109-131 | the loop that draws and re-filters the pool builds exactly `RandomChain` |
| ChainStream.ChooseChain | app/api/translate-chain-stream/route.ts:40-55 | a non-empty explicit chain is used as given; otherwise a length in [3, 15] generates a chain of that length, any other non-zero length is rejected with the range message, and a missing or zero length is rejected with the missing-chain message |
| ChainStream.StartLanguage | app/api/translate-chain-stream/route.ts:35 | a given start language is used as it is; otherwise the answer is the provider's detection, failure included |
| ChainStream.ProgressMessagesAt | app/api/translate-chain-stream/route.ts:90-100 | progress message i reports step i with the chain's length as the total |
| ChainStream.RunHopsStaysFailed | app/api/translate-chain-stream/route.ts:65-130 | once a hop has failed, no later hop is attempted |
| ChainStream.HopCompletes | app/api/translate-chain-stream/route.ts:66-101 | a hop whose two calls succeed appends its step, numbered i + 1 with the divergence of its back-translation, and moves the running text to its forward text |
| ChainStream.HopFails | app/api/translate-chain-stream/route.ts:65-130 | a failed call in a hop is the failure the whole run ends with |
| ChainStream.FailedStream | app/api/translate-chain-stream/route.ts:120-130 | a failed run streams its progress messages, then one error message with the failure's message |
| ChainStream.CompletedStream | app/api/translate-chain-stream/route.ts:103-119 | a completed run streams its progress messages, then one complete message holding the original, the start language, its name, the steps, the final text and the chain length |
| ChainStream.ProgressMessagesAppend | app/api/translate-chain-stream/route.ts:87-100 | pushing a step appends exactly its progress message |
| ChainStream.StreamChain | app/api/translate-chain-stream/route.ts:60-131 | the hop loop, with its early exit on the first failed call, emits exactly the specified message sequence |
| ChainStream.RunHopsSteps | app/api/translate-chain-stream/route.ts:62-88 | every recorded step is the hop of its position, translated from the previous hop's forward text (the original for hop 1); a run without failure has one step per hop; a failed run stopped at the first hop whose call failed |
| ChainStream.StepFields | app/api/translate-chain-stream/route.ts:70-85 | a step records its number i + 1, the chain's language and its name, the translations the provider gave, and the divergence of its back-translation from the original |
| ChainStream.StreamEventsShape | app/api/translate-chain-stream/route.ts:65-130 | every stream is progress messages closed by exactly one complete or error message, at most one progress message per hop |
| ChainStream.CompletedRunEvents | app/api/translate-chain-stream/route.ts:87-119 | when every hop succeeds: N progress messages numbered 1..N, then a complete message with N steps, total N, the original text, and the last back-translation (the original for an empty chain) as final text |
| ChainStream.FailedRunEvents | app/api/translate-chain-stream/route.ts:120-130 | when hop k + 1 fails: k progress messages, then one error message with that hop's failure, and no complete message |
| ChainStream.Post | app/api/translate-chain-stream/route.ts:13-150 | the handler answers exactly the response the specification gives |
| ChainStream.RespondWithChain | app/api/translate-chain-stream/route.ts:37-140 | once the start language is known, chain choice and the hop loop give exactly the specified response |
| ChainStream.StreamOnlyForValidRequests | app/api/translate-chain-stream/route.ts:19-55 | a stream is opened only for a parsed body with a non-blank key and text and an accepted chain |
| ChainStream.ValidRequestStreams | app/api/translate-chain-stream/route.ts:19-57 | conversely, a parsed body with a non-blank key and text, a resolved start language and an accepted chain always opens a stream |
| ChainStream.StreamIsWellFormed | app/api/translate-chain-stream/route.ts:57-140 | every stream the handler opens is well formed |
| ChainStream.ErrorResponses | app/api/translate-chain-stream/route.ts:13-150 | a blank key is reported first and a blank text next; every 400 carries one of the four validation messages; every other error is a 500 |
| ChainStream.GivenStartSkipsDetection | app/api/translate-chain-stream/route.ts:35 | with a start language given, the detector is never consulted: providers that translate alike answer alike |
| ChainStream.DetectionPrecedesChainCheck | app/api/translate-chain-stream/route.ts:35-43 | without a start language, a failing detection gives a 500 even when the chain would be rejected |
| ChainStream.ExplicitChainVerbatim | app/api/translate-chain-stream/route.ts:35-41 | a non-empty explicit chain is streamed as given from the resolved start language, given or detected, with no length or catalog check, and a random length sent beside it is ignored |
| ChainStream.GeneratedChainShape | app/api/translate-chain-stream/route.ts:35-49 | a generated chain has the requested length in [3, 15], only catalog codes, no repeated neighbours and a first code different from the start language, whether given or detected |
| LanguageList.SimplifyCode | app/api/supported-languages/route.ts:62-67 | the code is lower-cased, and `en-*`, `pt-*` and `zh-*` collapse to `en`, `pt` and `zh` |
| LanguageList.SimplifyCodeIdempotent | app/api/supported-languages/route.ts:62-67 | simplifying a simplified code changes nothing |
| LanguageList.SimplifyCodeCaseInsensitive | app/api/supported-languages/route.ts:62 | provider codes that differ only in case simplify alike |
| LanguageList.DisplayName | app/api/supported-languages/route.ts:69-70 | a code with a native name is shown as "native (provider name)", any other code with the provider name alone |
| LanguageList.DisplayNameRoundTrip | app/api/supported-languages/route.ts:69-70 | the provider's name can be recovered from the display name |
| LanguageList.MapLanguage | app/api/supported-languages/route.ts:60-77 | an entry carries the simplified code, its display name and the unsimplified provider code |
| LanguageList.UiLanguages | app/api/supported-languages/route.ts:60-77 | the mapping keeps length and order, entry by entry |
| LanguageList.FirstOfEach | app/api/supported-languages/route.ts:80-85 | deduplication never lengthens the list |
| LanguageList.FirstOfEachSpec | app/api/supported-languages/route.ts:80-85 | the kept codes are pairwise distinct, every input code is kept, and each kept entry is the first with its code |
| LanguageList.FirstOfEachCodes | app/api/supported-languages/route.ts:80-85 | the kept codes are exactly the input codes |
| LanguageList.FirstOfEachDistinct | app/api/supported-languages/route.ts:80-85 | no code is kept twice |
| LanguageList.FirstOfEachFirsts | app/api/supported-languages/route.ts:80-85 | each kept entry is the first input entry with its code |
| LanguageList.Dedup | app/api/supported-languages/route.ts:80-85 | the filter over a `seen` set keeps exactly the first entry of each code |
| LanguageList.LexLeqTotal | app/api/supported-languages/route.ts:88 | the name order is total |
| LanguageList.LexLeqTransitive | app/api/supported-languages/route.ts:88 | the name order is transitive |
| LanguageList.LexLeqAntisymmetric | app/api/supported-languages/route.ts:88 | names ordered both ways are equal |
| LanguageList.SortedByNamePairwise | app/api/supported-languages/route.ts:88 | in a sorted list every earlier name is at most every later one |
| LanguageList.SortByName | app/api/supported-languages/route.ts:88 | the in-place sort leaves the array ordered by name and a permutation of what it held |
| LanguageList.SinkEntry | app/api/supported-languages/route.ts:88 | one insertion pass extends the sorted prefix by one entry and only exchanges entries |
| LanguageList.Get | app/api/supported-languages/route.ts:4-98 | 400 "API key required" exactly when neither the query key nor the environment key is a non-empty string; 500 exactly when a key is present and the lookup throws, with its message or the fallback; a key and a successful lookup always give the list, a name-sorted permutation of the deduplicated mapped list |
| LanguageList.ListedLanguages | app/api/supported-languages/route.ts:60-88 | the answer lists exactly the simplified codes of the provider's languages, each entry being the first mapped language with its code |
| LanguageList.MappedCodes | app/api/supported-languages/route.ts:60-77 | the mapped codes are exactly the simplified provider codes |
| UiTranslation.VersionKeyHasPrefix | lib/useTranslation.ts:16-17 | the version key itself carries the cache prefix |
| UiTranslation.ClearedItems | lib/useTranslation.ts:63-74 | clearing removes exactly the cache keys and keeps every other item unchanged |
| UiTranslation.ClearedItemsIdempotent | lib/useTranslation.ts:63-74 | clearing twice is clearing once |
| UiTranslation.Storage.RemoveItem | lib/useTranslation.ts:180 | the storage loses that one key |
| UiTranslation.Storage.ClearAllCaches | lib/useTranslation.ts:63-74 | the loop over the keys leaves exactly the cleared storage |
| UiTranslation.Storage.GetCachedTranslations | lib/useTranslation.ts:32-46 | a stale or missing version clears all caches and answers nothing; otherwise the parsed entry of the language when it is present and non-empty |
| UiTranslation.Storage.SaveToCache | lib/useTranslation.ts:51-58 | the current version, then the language's encoded entry, are written |
| UiTranslation.SaveThenLookup | lib/useTranslation.ts:32-58 | a saved entry reads back as itself, and that lookup leaves the storage alone |
| UiTranslation.StaleVersionClearsEverything | lib/useTranslation.ts:34-39 | under a stale or missing version the lookup answers nothing, removes every cache key, and a lookup of any language afterwards answers nothing |
| UiTranslation.Pick | lib/useTranslation.ts:110 | the text is either the English fallback or a non-empty result found at that index |
| UiTranslation.FilledKeys | lib/useTranslation.ts:109-111 | after n keys, exactly the first n keys are filled |
| UiTranslation.FilledValues | lib/useTranslation.ts:109-111 | result i lands under key i, or the key's English text |
| UiTranslation.NatToString | lib/useTranslation.ts:116 | the status code prints as a non-empty string of digits |
| UiTranslation.TranslateStrings | lib/useTranslation.ts:79-124 | the batch reply and the pass over the keys give exactly the specified result |
| UiTranslation.TranslatedKeys | lib/useTranslation.ts:86-111 | a successful reply fills exactly the English keys, key i with result i or its English text |
| UiTranslation.Load | lib/useTranslation.ts:141-225 | loading always ends; whenever an error is reported the English strings are shown |
| UiTranslation.LoadTranslations | lib/useTranslation.ts:141-225 | the step-by-step loader ends in the specified state and storage |
| UiTranslation.ShortCircuits | lib/useTranslation.ts:143-160 | English and prebuilt languages are answered without storage or network and leave the storage alone |
| UiTranslation.CacheAcceptance | lib/useTranslation.ts:163-181 | a cached entry is served, whatever the network would answer and with the storage left alone, exactly when it is full-size and differs from English; in every other case loading goes on to translate as if there were no entry, after a full-size all-English entry is removed |
| UiTranslation.TranslateAndCache | lib/useTranslation.ts:184-224 | without a key, or when translation fails or returns English, the English strings are shown with an error and the storage is kept; otherwise the translation is shown without error and saved; loading always ends |
| UiTranslation.NoKeyFallsBack | lib/useTranslation.ts:163-192 | without a key and without an acceptable cache entry (none, the wrong size, or all English), the English strings are shown with "No API key available for translation" |
| UiTranslation.CachesOnlyTranslations | lib/useTranslation.ts:201-224 | the language's entry is written only with a translation that differs from English, which is then shown |
| UiTranslation.TranslatedThenCached | lib/useTranslation.ts:195-212 | a language translated once is served from the cache next time, with neither key nor network |
| TelephoneApp.ApplyMessage | components/TranslationTelephoneApp.tsx:75-86 | progress sets progress and, when present, the current step; complete sets the result and clears both; error throws its message; error and loading flag are untouched |
| TelephoneApp.ApplyLine | components/TranslationTelephoneApp.tsx:72-73 | only `data: ` lines are parsed, from their seventh character; a parse failure throws |
| TelephoneApp.App.constructor | components/TranslationTelephoneApp.tsx:20-24 | the page mounts with no result, no error, no progress, no step and loading off |
| TelephoneApp.App.HandleTranslate | components/TranslationTelephoneApp.tsx:26-96 | without a key only the error is set and nothing is posted; otherwise the explicit chain is posted and the state is the settled run |
| TelephoneApp.App.HandleRandomTranslate | components/TranslationTelephoneApp.tsx:98-168 | the same, posting the random chain length |
| TelephoneApp.App.Run | components/TranslationTelephoneApp.tsx:32-95 | the state is reset and loading set, the answer is read, then a thrown message becomes the error, clears progress, and loading ends |
| TelephoneApp.App.Receive | components/TranslationTelephoneApp.tsx:38-92 | the loops over chunks and lines give exactly the specified reading, stopping at the first throw |
| TelephoneApp.App.HandleReset | components/TranslationTelephoneApp.tsx:170-175 | result, error, progress and current step are cleared; loading is untouched |
| TelephoneApp.ConsumeLinesAppend | components/TranslationTelephoneApp.tsx:71-92 | a throw stops the reading: later lines change nothing |
| TelephoneApp.ChunksAreLines | components/TranslationTelephoneApp.tsx:64-71 | reading chunk by chunk is reading all their lines in order |
| TelephoneApp.ConsumeLinesKeeps | components/TranslationTelephoneApp.tsx:71-89 | reading never changes the error or the loading flag |
| TelephoneApp.FrameLines | app/api/translate-chain-stream/route.ts:98-100 | a frame with a newline-free payload splits into its `data: ` line, whose payload is exactly the original, and an empty line |
| TelephoneApp.FramesRoundTrip | components/TranslationTelephoneApp.tsx:64-89 | frames run together into one chunk are read as the framed messages, in order |
| TelephoneApp.EnqueuedRoundTrip | components/TranslationTelephoneApp.tsx:64-89 | the route's frames, one chunk each, are read as the framed messages, in order |
| TelephoneApp.StreamView | components/TranslationTelephoneApp.tsx:75-92 | reading a well-formed stream ends with the complete message's result and cleared progress, or throws the error message with the result untouched |
| TelephoneApp.RunSettles | components/TranslationTelephoneApp.tsx:26-96 | after any run with a key, loading is off and the error is exactly what was thrown, with progress cleared; an error status shows its `error` field or "Translation failed" |
| TelephoneApp.ReadsEnqueued | components/TranslationTelephoneApp.tsx:64-95 | a run over the route's frames settles exactly as reading its messages does |
| TelephoneApp.SettlesStream | components/TranslationTelephoneApp.tsx:75-95 | after a well-formed stream loading and progress are off; a complete message shows its result with no error; an error message shows its message and no result |
| TelephoneApp.ShowsCompletedChain | components/TranslationTelephoneApp.tsx:80-95 | end to end, a chain whose hops all succeed leaves the page showing the route's result, with one step per hop and the last back-translation as final text |
| TelephoneApp.ShowsFailedChain | components/TranslationTelephoneApp.tsx:84-95 | end to end, a chain with a failing hop leaves the page showing that failure's message and no result |

## Left out

- Network calls are not modelled. The DeepL client, `getTranslator` and
  its environment-key fallback, and the `fetch` calls of the page and the
  hook are all parameters: a `Provider` of two functions, a `fetch`
  function, and a `BatchReply`. The translation route checks the key itself
  before any call, so the fallback never matters there.
- `JSON.stringify` and `JSON.parse` are abstract functions. The end-to-end
  lemmas assume that parsing inverts serialising and that serialised text
  has no line break. A JSON body that fails to parse on the route is a
  `Result` error message.
- Transport is not modelled: `ReadableStream`, `TextEncoder` and
  `TextDecoder`. The page's reader gets decoded chunks. The round trip is
  proved for the route's own chunking, one frame per chunk, and for all
  frames in one chunk. A frame cut across two chunks is read as two broken
  lines by the source as well, and is not modelled.
- A rejected `reader.read()` is not modelled.
- A thrown value that is not an `Error` is not modelled. The page would show
  "An unknown error occurred", and the route would answer "Unknown error
  occurred".
- An unknown message type is not modelled; the page ignores one.
- `Math.random()` is a function from draw number to a real in [0, 1). A
  non-integer `randomChainLength` is not modelled; the length is an
  integer.
- RoundedDistance, Score, Divergence: computed on exact rationals with
  round-half-up. The source computes in floating point, where
  `(1 - i/u) * 100` can land just below a half and round down.
- ToLower, ToUpper, SimplifyCode, NormalizeDetectedCode: map ASCII letters
  only. JavaScript's Unicode case mapping of other letters is not modelled.
- LanguageList.SortByName: orders names by code point, in place of
  `localeCompare`. Stability of `Array.prototype.sort` is not stated, so
  entries with equal names may come out in either order.
- The `isFree` field that the page posts is not modelled. The route ignores
  it.
- The progress-bar percentages and all rendering are not modelled.
- The `try`/`catch` blocks around local storage are not modelled. The
  storage is a map that never throws.
- The order of `Object.keys(localStorage)` is not modelled. The clearing
  loop picks keys in any order, and its result does not depend on it.
- The prebuilt translations are a parameter map.
- The language `version` is excluded from the cache round trip in
  UiTranslation.SaveThenLookup. Its entry key would be the version key
  itself.
- The hop loop is stated over any name lookup and divergence
  (`ChainStream.Library`). `Post` runs it with `Lib`, which holds the
  catalog lookup and `Divergence`.
- React scheduling, effects and asynchronous interleaving are not
  modelled. Every run is sequential and runs to completion.
- A catalog entry with an empty name would be named by its code, as
  `lang?.name || code` does. No entry has an empty name.
