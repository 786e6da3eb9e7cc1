# AquaCare model

AquaCare is a mobile-style web app for tracking household water use:
- users register and sign in;
- they enter a monthly meter reading, typed or read from a photo by an AI model;
- the app compares it with the previous month, shows a result card and grants rewards;
- it draws a bar chart of the history and gives a tip of the day;
- it offers an AI chat assistant, and an English/Arabic interface.

This project is a Dafny model of the logic behind those screens, with proofs about it. It has one module per source file, plus three shared ones:

| module | models |
|---|---|
| `Types` (`types.dfy`) | the entities: profile, consumption record, reward and reward template, chat message; `Option` and `Result` |
| `Text` (`text.dfy`) | `trim`, the blank test `!s.trim()`, and `toLowerCase` |
| `Arith` (`arith.dfy`) | facts about multiplication and division, on reals and on integers |
| `App` (`app.dfy`) | `App.tsx` |
| `HomeView` (`home_view.dfy`) | `components/MockupDisplay.tsx` |
| `ConsumptionChart` (`consumption_chart.dfy`) | `components/ConsumptionChart.tsx` |
| `Chatbot` (`chatbot.dfy`) | `components/Chatbot.tsx` |
| `ProfileView` (`profile_view.dfy`) | `components/PromptInput.tsx` |
| `Language` (`language.dfy`) | `contexts/LanguageContext.tsx` |
| `GeminiService` (`gemini_service.dfy`) | `services/geminiService.ts` |

What each module covers:
- **`App.AppState`** is a class. Its fields are the registry, the active profile, the active user's ledger and rewards, the page shown, and browser storage. Storage is two maps from storage key (`consumptionHistory_<id>`, `userRewards_<id>`) to the list stored there.
  - Its ghost invariant `Valid()` says that the lists shown are the lists stored under the active user's keys.
  - Each handler states the whole new state.
- **`HomeView`**:
  - the comparison of a submitted reading with the previous one (`Classify`);
  - the reward it earns (`RewardFor`);
  - the whole submission (`Evaluate`, the specification of the `HomeScreen.HandleSubmit` method);
  - the quick stats, the monthly greeting, and the daily-tip cache and index rule.
- **`ConsumptionChart`**: the chart figures (mean, scale, first highest bar) and the bar and average-line geometry.
- **`Chatbot.ChatSession`**: `sendMessage` as a method whose loop appends each streamed chunk to the model's message. It is proved equal to the pure `Transcript`.
- **`ProfileView.ProfileForm`**: the form gating as pure functions, and the handlers as methods that call the `App` handlers.
- **`Language`**:
  - the lookup `t` is the method `T`, with its two loops, proved equal to the pure `Translate`;
  - the provider class keeps `lang` and `dir` on the document in step with the language.
- **`GeminiService`**: the no-key mock answers, the error texts, and the reading clean-up `text.match(/[\d.]+/)`.

How the model represents the source:
- A JavaScript `number` is a Dafny `real`. What `parseFloat` gives is a parameter of type `Option<real>`, with `None` for `NaN`.
- The clock is a parameter: the `Date.now()` text that makes ids, the current ISO time, and the ISO time one month back.
- Each answer of the AI service is a parameter: what it replied, or what it threw.

Design note: the code tests the reduction with `>= 0.1` (`components/MockupDisplay.tsx:110`), so a cut of exactly ten percent, such as 100 to 90, earns the special outcome and the Amazon coupon (`HomeView.ScenarioExactlyTenPercent`).

## Model

| member | source | states |
|---|---|---|
| Types.WithId | App.tsx:93 | the new profile carries every sign-up field unchanged plus the fresh id |
| Types.Instantiate | components/MockupDisplay.tsx:112-125 | an earned reward carries the template's title, description, type and icon, plus the given id and date |
| Text.Trim | services/geminiService.ts:88 | the result is the slice of the input after its leading white space; only white space follows it; it neither starts nor ends with white space; it is empty exactly when the input is all white space |
| Text.Lower | App.tsx:90 | lower-casing keeps the length and folds each character on its own |
| Text.LowerIdempotent | App.tsx:90 | lower-casing twice equals lower-casing once |
| Text.SameLowerPointwise | App.tsx:90 | two names are equal up to case exactly when they have the same length and fold to the same character at every position |
| App.KeysSeparateUsers | App.tsx:57-58 | history keys are equal exactly for equal ids, and so are rewards keys; a history key never equals a rewards key |
| App.Find | App.tsx:101 | the index found is the first user matching the name up to case (and the password exactly, when one is given); none is found exactly when no user matches |
| App.AppendKeepsNamesUnique | App.tsx:89-95 | registering a name that nobody holds up to case keeps names unique up to case |
| App.ReplaceById | App.tsx:115 | the list keeps its length; every user with the updated id is replaced; every other user is kept |
| App.ReplaceByIdIdempotent | App.tsx:115 | applying the same update twice gives the same list as applying it once |
| App.UpdateCanBreakNamesUnique | App.tsx:114-118 | there is a registry with unique names that a profile update turns into one with a name shared up to case |
| App.Persist | App.tsx:68-80 | with an active user, the value is stored under its key; every other stored list is kept, and no key other than the written one is added |
| App.AppState.constructor | App.tsx:41-87 | the registry and the active profile are as stored; the active user's lists are loaded and saved back; the profile page is shown exactly when nobody is active |
| App.AppState.Select | App.tsx:56-80 | after a change of active profile, its lists are the stored ones (empty when nothing is stored, or when nobody is active), they are written back under its keys, and the invariant holds |
| App.AppState.SignUp | App.tsx:89-98 | an error is returned exactly when the name is taken up to case; it is the sign-up message translated into the current language, never falsy, and then nothing changes; otherwise the new user is appended, signed in and sent home; names stay unique |
| App.AppState.SignIn | App.tsx:100-108 | an error is returned exactly when no user matches; it is the sign-in message translated into the current language, never falsy, and then nothing changes; otherwise the first matching user is signed in with their stored lists, and the home page is shown |
| App.AppState.SignOut | App.tsx:110-112 | nobody is active, the shown lists are empty, storage is untouched, and the profile page is shown |
| App.AppState.UpdateProfile | App.tsx:114-118 | users with the profile's id are replaced, the profile becomes active with its lists, and the home page is shown |
| App.AppState.AddRecords | App.tsx:120-122 | the ledger gains the batch at its end in order, it is saved under the active user's key, and nothing else changes |
| App.AppState.AddReward | App.tsx:124-126 | the reward list gains the reward at its end, it is saved under the active user's key, and nothing else changes |
| HomeView.Classify | components/MockupDisplay.tsx:107-131 | the comparison of validated readings never yields the `first` result |
| HomeView.ClassifyCases | components/MockupDisplay.tsx:108-110 | warning exactly when the reading did not drop; special exactly when the drop is at least a tenth of the old reading; plain success exactly for a smaller drop; a zero old reading always warns |
| HomeView.CatalogueIndex | components/MockupDisplay.tsx:119 | the catalogue position is always inside the five-entry catalogue |
| HomeView.CatalogueRoundRobin | components/MockupDisplay.tsx:18-24 | the catalogue repeats with period five; counts less than five apart pick different rewards |
| HomeView.RewardFor | components/MockupDisplay.tsx:110-127 | at most one reward is earned per comparison |
| HomeView.RewardMatchesOutcome | components/MockupDisplay.tsx:110-127 | no reward exactly on a warning; the Amazon coupon on the special outcome; the catalogue entry at `rewards.length % 5` on a plain success; a reward is dated now |
| HomeView.EvaluateRejects | components/MockupDisplay.tsx:135-140 | a submission is rejected exactly when the current reading is `NaN` or negative, or when a new user's previous reading is |
| HomeView.EvaluateNewUser | components/MockupDisplay.tsx:138-151 | a new user gets two records, the previous month's then the current one, and the two are compared |
| HomeView.EvaluateExistingUser | components/MockupDisplay.tsx:152-160 | an existing user gets exactly one record, compared with the last recorded reading; it warns exactly when that reading was not above the new one |
| HomeView.ScenarioNewUserLargeCut | components/MockupDisplay.tsx:138-151 | a new user going from 50 to 40 gets two records, the special outcome and one Amazon coupon |
| HomeView.ScenarioExactlyTenPercent | components/MockupDisplay.tsx:109-111 | a cut from 100 to 90 reaches the special outcome |
| HomeView.ScenarioUnchangedReading | components/MockupDisplay.tsx:152-160 | repeating the last reading warns, earns nothing and still adds a third record |
| HomeView.StatsReadLastTwo | components/MockupDisplay.tsx:52-54 | the stats depend only on the last two records |
| HomeView.StatsBounds | components/MockupDisplay.tsx:52-66 | for non-negative readings the percentage is at most 100; it is positive exactly when the last reading fell below the one before; savings and percentage are positive together |
| HomeView.StatsAgreeWithOutcome | components/MockupDisplay.tsx:57-59 | after any accepted record, also after a zero or negative previous reading, the savings are positive exactly when the comparison was a success, and the percentage reaches ten exactly when it was special |
| HomeView.GreetingWarnsOnRise | components/MockupDisplay.tsx:232 | the greeting warns exactly when there are two records and the last rose above a positive reading before it |
| HomeView.TipIndex | components/MockupDisplay.tsx:92 | the tip index is always within the tip list |
| HomeView.TipRotation | components/MockupDisplay.tsx:90-93 | for any number of tips, the next day of the month shows the next tip, wrapping round after the last; with more than one tip, consecutive days never show the same one |
| HomeView.CachedTipsSkipGeneration | components/MockupDisplay.tsx:75-88 | with a non-empty cache for today, the tip service's answer makes no difference, the cache is kept, and the tip shown is a cached one |
| HomeView.DailyTipCacheRule | components/MockupDisplay.tsx:68-105 | the cache changes only when tips were generated afresh, and then holds today's date and exactly those tips; a new user sees none; otherwise the tip shown is the one at `(day - 1) % length` of today's cached list, or, with no cache for today, of a fresh non-empty answer, which is then cached |
| HomeView.DailyTipAdvances | components/MockupDisplay.tsx:90-93 | with the same tip list in use on two consecutive days of the month, the second day shows the tip after the first day's, wrapping round after the last |
| HomeView.HomeScreen.constructor | components/MockupDisplay.tsx:42-44 | both inputs start empty and no result is shown |
| HomeView.HomeScreen.ProcessComparison | components/MockupDisplay.tsx:107-131 | the result card shows the outcome; the earned reward, if any, is appended and saved; the ledger, registry and page are unchanged |
| HomeView.HomeScreen.HandleSubmit | components/MockupDisplay.tsx:133-165 | a rejected submission changes nothing; an accepted one appends the records and the reward that `Evaluate` gives, saves both, shows the outcome and clears the inputs |
| ConsumptionChart.Values | components/ConsumptionChart.tsx:17 | the list of readings, position by position |
| ConsumptionChart.MaxOf | components/ConsumptionChart.tsx:17 | the maximum is a reading, and no reading exceeds it |
| ConsumptionChart.FirstIndexFrom | components/ConsumptionChart.tsx:18 | -1 exactly when the value is absent; otherwise the first index that holds it |
| ConsumptionChart.Mean | components/ConsumptionChart.tsx:15-16 | the mean times the count is the sum, and the mean is at most the largest reading |
| ConsumptionChart.SumAtMost | components/ConsumptionChart.tsx:15 | a sum of readings each at most `m` is at most count times `m` |
| ConsumptionChart.SumNonNegative | components/ConsumptionChart.tsx:15 | a sum of non-negative readings is non-negative, and positive exactly when some reading is positive |
| ConsumptionChart.ChartDataFigures | components/ConsumptionChart.tsx:12-25 | no chart exactly for an empty history; the average is the mean; the scale is at least every reading and at least 1.2 times the mean, and equals one of them |
| ConsumptionChart.HighestIsFirstMaximum | components/ConsumptionChart.tsx:18 | the highest bar is in range, no bar is taller, and every bar before it is strictly lower |
| ConsumptionChart.ScaleZeroIffAllZero | components/ConsumptionChart.tsx:17 | for non-negative readings the scale is non-negative, and zero exactly when every reading is zero |
| ConsumptionChart.BarWithinChart | components/ConsumptionChart.tsx:62-64 | a reading between zero and a positive scale gives a bar height, and a top, between 0 and the chart height |
| ConsumptionChart.BarsWithinChart | components/ConsumptionChart.tsx:61-64 | with a positive scale, every bar of a non-negative history lies inside the chart |
| ConsumptionChart.AverageLineBelowTop | components/ConsumptionChart.tsx:50-52 | a positive mean puts the average line at least a sixth of the height below the top |
| ConsumptionChart.BarsDoNotOverlap | components/ConsumptionChart.tsx:63 | layout bookkeeping in linear arithmetic: each bar plus its margin ends where the next bar starts, and the last one ends at the drawing's width |
| ConsumptionChart.OneLatestOneHighest | components/ConsumptionChart.tsx:65-66 | bookkeeping on the two index tests: exactly one bar, the last, is marked latest, and exactly one, the first highest, is marked highest |
| ConsumptionChart.ChartExample | components/ConsumptionChart.tsx:12-25 | readings 10, 20, 30 give mean 20, scale 30, and the third bar as highest |
| Chatbot.ConcatAppend | components/Chatbot.tsx:46-53 | the reply text of two consecutive stretches of the stream is the first's text followed by the second's |
| Chatbot.AppendChunk | components/Chatbot.tsx:48-55 | a chunk's text is appended to the last message only when that message is the model's; otherwise the transcript is unchanged |
| Chatbot.WithError | components/Chatbot.tsx:61-68 | after a failure, the last message is the error message; it replaces a final model message, and is appended after anything else |
| Chatbot.TranscriptShape | components/Chatbot.tsx:36-68 | each exchange keeps the old messages and adds exactly two: the user's text, then a model message that is the concatenated reply when the stream ends normally and the error message otherwise |
| Chatbot.StreamSplitsAnywhere | components/Chatbot.tsx:46-56 | the reply is the chunk texts in stream order, however the stream is cut |
| Chatbot.ChatSession.constructor | components/Chatbot.tsx:10-13 | an empty transcript, an empty input and nothing loading |
| Chatbot.ChatSession.SendMessage | components/Chatbot.tsx:33-72 | nothing changes for blank text, a missing chat or a pending reply; otherwise the transcript becomes `Transcript`, and loading ends on every path |
| Chatbot.ChatSession.HandleFormSubmit | components/Chatbot.tsx:74-78 | the input is always cleared; the transcript changes as `sendMessage` says |
| ProfileView.Flip | components/PromptInput.tsx:117 | the mode toggle always changes the mode |
| ProfileView.FlipTwice | components/PromptInput.tsx:117 | toggling the mode twice restores it |
| ProfileView.OrDefault | components/PromptInput.tsx:47-52 | a field's start value is never empty: the profile's value when it is not empty, and the sample value otherwise |
| ProfileView.InitialFields | components/PromptInput.tsx:47-52 | every box starts filled: with the profile's non-empty fields, or with the six sample values when there is no profile |
| ProfileView.SignUpData | components/PromptInput.tsx:61 | sign-up sends the six boxes, with the meter box as `waterMeterNumber` |
| ProfileView.AuthGate | components/PromptInput.tsx:59-67 | sign-up is called exactly in sign-up mode with all six boxes filled; sign-in exactly in sign-in mode with name and password, and sign-in reads no other box |
| ProfileView.InitialFormPassesGate | components/PromptInput.tsx:47-66 | the form as first shown passes the gate in either mode |
| ProfileView.UpdateFor | components/PromptInput.tsx:75-76 | an update is sent exactly when there is a profile and every box is filled; it keeps the profile's id and takes the six boxes |
| ProfileView.UpdateKeepsId | components/PromptInput.tsx:76 | an update keeps the id, and resubmitting the profile's own values sends the profile unchanged |
| ProfileView.ProfileForm.constructor | components/PromptInput.tsx:44-52 | sign-up mode, no error, and the boxes as `InitialFields` gives |
| ProfileView.ProfileForm.Edit | components/PromptInput.tsx:92-106 | typing changes the boxes only |
| ProfileView.ProfileForm.HandleAuthSubmit | components/PromptInput.tsx:54-71 | no call leaves the registry untouched and clears the error; a sign-up or sign-in call shows an error exactly when that call fails, and the error shown is the registry's translated message; otherwise the user is signed in with the lists stored under their keys, which are written back, and sent home |
| ProfileView.ProfileForm.HandleUpdateSubmit | components/PromptInput.tsx:73-78 | the registry changes only when the gate allows; it then replaces users by id, makes the profile active with the lists stored under its keys, writes them back, and goes home |
| ProfileView.ProfileForm.ToggleAuthMode | components/PromptInput.tsx:117 | the mode flips and nothing else changes |
| ProfileView.ProfileForm.ToggleLanguage | components/PromptInput.tsx:80-82 | the language flips between English and Arabic and is stored |
| Language.Dir | contexts/LanguageContext.tsx:42 | the direction is `rtl` exactly for Arabic and `ltr` exactly for English |
| Language.Toggle | components/PromptInput.tsx:81 | toggling always changes the language |
| Language.ToggleTwice | components/PromptInput.tsx:81 | toggling twice restores the language |
| Language.Split | contexts/LanguageContext.tsx:46 | splitting gives at least one piece, and no piece contains a dot |
| Language.JoinSplit | contexts/LanguageContext.tsx:46 | joining the pieces with dots gives the key back |
| Language.SplitJoin | contexts/LanguageContext.tsx:46 | splitting the dot-join of dot-free pieces gives the pieces back |
| Language.SplitNoDot | contexts/LanguageContext.tsx:46 | a key without dots is a single piece |
| Language.Step | contexts/LanguageContext.tsx:49 | a step is defined exactly when it is taken from a table that has the key, and then it is that entry |
| Language.WalkStaysUndefined | contexts/LanguageContext.tsx:48-57 | once a prefix of the path is undefined the whole path is, so the early return loses nothing |
| Language.WalkTwoLevels | contexts/LanguageContext.tsx:47-49 | a two-piece path through nested tables reaches the node stored there |
| Language.OrKey | contexts/LanguageContext.tsx:59 | `value \|\| key` is always either the value looked up or the key, and it is never falsy for a non-empty key |
| Language.TranslateFound | contexts/LanguageContext.tsx:59 | a truthy node at the path in the current language is returned as it is |
| Language.TranslateFalsyIsKey | contexts/LanguageContext.tsx:59 | an empty text at the path gives the key, not the English text |
| Language.TranslateFallback | contexts/LanguageContext.tsx:50-56 | a path undefined in the current language gives the English node when that is truthy, and the key otherwise |
| Language.TranslateEnglish | contexts/LanguageContext.tsx:52-56 | in English the result is the English node or the key |
| Language.TranslateTruthy | contexts/LanguageContext.tsx:56-59 | a non-empty key never translates to an empty text |
| Language.TranslateFlatKey | contexts/LanguageContext.tsx:45-60 | a dot-free key gives its entry in the current table when present and truthy; it gives the English entry when the current table lacks it |
| Language.T | contexts/LanguageContext.tsx:45-60 | the walk with the early return and the English fallback loop returns exactly `Translate` |
| Language.LanguageProvider.constructor | contexts/LanguageContext.tsx:14-38 | the stored language, or English when none is stored; the document shows it and its direction |
| Language.LanguageProvider.SetLanguage | contexts/LanguageContext.tsx:25-43 | the language is set and stored, and the document direction is `rtl` exactly for Arabic |
| Language.LanguageProvider.Lookup | contexts/LanguageContext.tsx:45-60 | `t` in the current language is `Translate` |
| GeminiService.Rethrown | services/geminiService.ts:54-60 | a rethrown message is never empty; it is the unexpected-error text or starts with the tips prefix, and after the prefix the original `Error`'s message reads back unchanged |
| GeminiService.MockTipsWithoutKey | services/geminiService.ts:26-35 | without an API key the five fixed tips come back, whatever the service would answer |
| GeminiService.TipsWithKey | services/geminiService.ts:46-60 | a blank answer fails with the tips prefix followed by the empty-response message, which itself starts with a near-copy of that prefix (`Failed to generate tips:` then `Failed to generate tips. The response was empty.`); a parsed answer without truthy `tips` gives no tips; present tips are returned; every error has the tips prefix or is the unexpected-error message |
| GeminiService.RunStart | services/geminiService.ts:90 | the first digit or dot at or after a position, or the end |
| GeminiService.RunEnd | services/geminiService.ts:90 | the first character that is neither a digit nor a dot at or after a position, or the end |
| GeminiService.MatchReading | services/geminiService.ts:90-91 | the result is the slice starting at the first digit or dot; it is made of digits and dots and is not followed by one; it is empty exactly when there is no digit and no dot |
| GeminiService.RunUnique | services/geminiService.ts:90 | any leftmost maximal run of digits and dots is the match |
| GeminiService.MatchInSlice | services/geminiService.ts:88-91 | cutting away parts without digits or dots does not change the match |
| GeminiService.MatchIgnoresTrim | services/geminiService.ts:88-91 | trimming before matching does not change the match |
| GeminiService.ReadWaterMeter | services/geminiService.ts:63-97 | without a key the reading is `123.45`; a failed call gives the image error; a reading is only digits and dots |
| GeminiService.MeterReadingWithKey | services/geminiService.ts:88-91 | with a key the reading is the match on the untrimmed answer, empty exactly when the answer has no digit and no dot |
| GeminiService.MatchExamples | services/geminiService.ts:90-91 | `7.5 m3` gives `7.5`; `a.` gives `.`; `no` gives the empty reading |

## Left out

- `parseFloat` and `isNaN`: not modelled. Their results are parameters (`None` for `NaN`). So the model does not tie the text in the input boxes to the parsed readings, nor check that a photo reading parses as a number (`components/MockupDisplay.tsx:188`).
- Floating point: numbers are exact reals.
  - HomeView.ScenarioExactlyTenPercent and HomeView.ClassifyCases state the ten-percent test on exact reals. Near-boundary results of binary rounding are not captured.
  - `toFixed` display formatting is left out.
  - A zero chart scale makes `0 / 0`; it is modelled as `None` ("not a number") rather than as a float.
- Clocks and ids: `Date.now()`, `toISOString` and `toLocaleString` are opaque parameters. One clock reading serves a whole submission. The `setMonth` month arithmetic for the previous record's date is not modelled.
- Browser storage: modelled as two maps from key to list. The following are left out:
  - JSON encoding and decoding, and failures of storage or `JSON.parse`;
  - the `usersDb` and `activeProfile` entries, which are modelled only as the registry and the active profile;
  - the tips cache's storage failure path.
- App.AppState.Select: React's effect scheduling is not modelled. The load effect and the two save effects it triggers are folded into one step. The brief render in which the save effects write the previous user's lists under the new user's keys is left out, because the next render overwrites it with the loaded lists.
- Chatbot.ChatSession.SendMessage: its ensures speak only of the state after the call. That `isLoading` is true while the stream is read is stated only as a loop invariant. Two sends started in the same render before `isLoading` updates are not modelled; the class processes one call at a time.
- Chatbot: these are not part of this model:
  - creating the chat session and its system prompt;
  - the typing indicator and the prompt starter buttons;
  - scrolling.
  Whether a chat session exists is the `chatReady` flag.
- Text.Trim and Text.Lower: `toLowerCase` is ASCII only, and the full Unicode case mapping is left out. `trim` uses the exact ECMAScript white-space set.
- Language: only `en` and `ar` are modelled.
  - A stored language outside these two is left out.
  - Looking up inside a text node is undefined in the model. JavaScript would index the string's characters or properties.
  - Inherited object properties such as `constructor` are not looked up.
  - The translation tables themselves are a parameter; the `translations` file is not part of this model.
- GeminiService: the SDK calls `generateContent` and `sendMessageStream` are foreign code. Their outcomes are parameters: the reply text, the JSON parse result of the trimmed text, or the value thrown. The schema and the prompts are left out.
- The photo flow is not modelled: `FileReader`, the data-URL split, the image preview and the error card.
- The TipsView loading screen, the rewards and about pages, the navigation bar, the header, the splash screen and the icons: presentational components with no logic beyond display order.
- `sw.js`: service-worker cache I/O, not part of this model.
- HomeView.Classify: the `first` result is never produced by the code. The contract states only that it is never returned.
