# JARVIS voice assistant: a Dafny model of `script.js`

JARVIS is a single web page. You can talk to it, or type into it, and it
answers by speech and in an on-screen history. This project models the
page's behaviour as `script.js` implements it:

- **The command dispatcher** (`handleCommand`). It is an ordered chain of
  keyword tests on the lower-cased command: time, date, Google, YouTube,
  Facebook, Wikipedia, "search … for …", joke, sleep, then a fallback. The
  first keyword that matches picks the spoken reply, the history line and
  the page to open.
  - A search query is `command.split('for')[1].trim()`, taken from the
    command as typed, not the lower-cased one.
  - When that piece does not exist, the script throws a TypeError. The model
    returns `Threw` in that case, after the USER line has already been
    logged.
- **The wake gate** (`recognition.onresult`).
  - The transcript is trimmed and lower-cased.
  - While the assistant is asleep, only a transcript containing "hey jarvis"
    gets through. It wakes the assistant, and the first occurrence of the
    phrase is cut out.
  - An empty remainder gets the prompt "Yes, Sir. How may I assist you?".
    Any other remainder goes to the dispatcher.
  - Recognition is always stopped afterwards.
- **The recognition callbacks** (`onstart`, `onend`, `onerror`) and the talk
  button (`toggleListening`).
- **`speak`**: it cancels the current speech, queues the new utterance and
  remembers `lastSpokenText`. The utterance's `onend` restarts recognition
  when auto-listen is on and the assistant is awake.
- **`addToHistory`**, modelled as appending an entry to a sequence.

## Structure

The JavaScript built-ins the core relies on are written out in `jsstring.dfy`
(module `JsString`):

- `trim`, over the full ECMAScript white-space set;
- `indexOf` and `includes`;
- `replace` with a string pattern, which replaces the first occurrence only;
- `split` and `join`;
- `toLowerCase`.

Their properties are proved there.

`commands.dfy` (`Commands`) holds the dispatcher as a pure function:

- `Classify` picks the branch.
- `SearchQuery` extracts the query.
- `Dispatch` gives the whole outcome.
- A second, table-driven definition (`Rules`, `FirstMatch`) is proved equal
  to the if/else chain.

`wakegate.dfy` (`WakeGate`) holds the gate as a function of the transcript
and the awake flag.

`session.dfy` (`Assistant`) holds the page's globals as the class `Session`:

- Its fields are `isAwake`, `isListening`, `lastSpokenText`, the history,
  and a log of the requests the handlers make of the browser's speech
  recognition, speech synthesis and `window.open`.
- Its methods are the handlers.
- Each method is proved to leave exactly the state a specification function
  of the old state gives (`AfterSpeak`, `AfterCommand`, `AfterResult`,
  `AfterError`, `AfterToggle`, `AfterSpeechEnd`). The properties of the
  handlers are proved about those functions.

`runs.dfy` (`Runs`) treats the page as a sequence of events:

- the events are the callbacks and the user's inputs;
- it proves invariants that hold after any sequence of them.

`scenarios.dfy` (`Scenarios`) works out concrete conversations.

## Model

| member | source | states |
|---|---|---|
| JsString.IndexOfFirst | script.js:124-125 | `includes`/`indexOf` find the first occurrence: no occurrence of the pattern starts before the index returned, and none at all when nothing is returned |
| JsString.IncludesIffOccurs | script.js:124 | `includes` holds exactly when the pattern occurs at some index |
| JsString.IncludesLower | script.js:201-204 | a keyword found in a string is also found, lower-cased, in the lower-cased string |
| JsString.TrimShape | script.js:120 | `trim` leaves no white space at either end, and gives the empty string exactly for an all-white-space input |
| JsString.TrimDropsOnlyEdgeWhitespace | script.js:120 | `trim` removes only a white-space prefix and suffix: the input is the result surrounded by white space |
| JsString.TrimBetween | script.js:127 | when white space surrounds a segment with non-space ends, `trim` returns exactly that segment |
| JsString.TrimIdempotent | script.js:120 | trimming twice is trimming once |
| JsString.LowerPointwise | script.js:120 | `toLowerCase` maps every character through the per-character lowering, and its result has no upper-case letter |
| JsString.LowerIdempotent | script.js:201 | lower-casing an already lower-cased string changes nothing |
| JsString.ReplaceFirst | script.js:127 | `replace` with a string pattern leaves a string without the pattern unchanged; otherwise the length drops by the pattern's and grows by the replacement's |
| JsString.ReplaceFirstKeepsLower | script.js:127 | cutting the wake phrase out of a lower-case transcript leaves it lower case |
| JsString.Split | script.js:237 | `split` returns at least one piece, and exactly one when the separator does not occur |
| JsString.SplitPiecesLackSeparator | script.js:237 | no piece returned by `split` contains the separator |
| JsString.JoinSplit | script.js:237 | joining the pieces of `split` with the separator gives back the original string |
| JsString.SplitSecond | script.js:237 | when the separator occurs, piece `[1]` exists and is the text from the first occurrence up to the next one or the end |
| Commands.ClassifyIsFirstMatch | script.js:204-262 | the if/else chain of keyword tests equals "the first rule of the priority table whose keywords all occur" |
| Commands.FirstMatchIsFirst | script.js:204-262 | the rule picked from a table fires and no earlier rule does; nothing is picked exactly when no rule fires |
| Commands.ClassifyPriority | script.js:204-262 | the fallback is chosen exactly when no keyword rule fires; otherwise the chosen rule fires and every rule before it does not |
| Commands.SearchQuery | script.js:237 | a query exists exactly when the command as typed contains "for", and it has no white space at either end |
| Commands.SearchQueryBetweenFors | script.js:237 | the query is the trimmed text between the first "for" and the next "for" (or the end), and it never contains "for" |
| Commands.DispatchShape | script.js:195-263 | an empty command is ignored; the command throws exactly when it classifies as a search and, as typed, has no "for"; an answer follows the chosen rule, speaks what it logs except when going to sleep, and opens a page exactly for the site and search rules |
| Commands.ReplyHeads | script.js:207-261 | every reply except the fallback starts with a different letter from the fallback's |
| Commands.FallbackOnlyWhenUnmatched | script.js:259-262 | the fallback line is spoken and logged exactly when no keyword matched |
| Commands.LowerCaseNeverThrows | script.js:236-237 | a lower-case command never makes the search branch throw |
| WakeGate.NormalizedForm | script.js:120 | the normalized transcript is lower case and has no white space at either end |
| WakeGate.GateAwakeAfter | script.js:124-126 | after the gate, the assistant is awake exactly when it was awake before or the phrase was heard |
| WakeGate.AsleepWithoutPhraseDrops | script.js:124 | asleep, a transcript without the phrase is dropped and the assistant stays asleep |
| WakeGate.AwakeForwardsUnchanged | script.js:133-135 | awake, a transcript without the phrase is forwarded unchanged |
| WakeGate.PhraseWakes | script.js:125-132 | with the phrase, the assistant wakes and only the first occurrence is cut out; an empty remainder greets, any other is forwarded trimmed |
| WakeGate.ForwardedIsLower | script.js:120-135 | whatever the gate forwards from a lower-case transcript is lower case |
| Assistant.SpeakCancelsThenQueues | script.js:290-319 | with synthesis, `speak` queues a cancel and then the utterance, and remembers its text; without synthesis it changes nothing; it never touches the history, the awake flag or the listening flag |
| Assistant.EmptyCommandIgnored | script.js:196 | an empty command changes nothing |
| Assistant.CommandLogsExchange | script.js:198-262 | a non-empty command logs the USER line first; a throwing search logs nothing more; otherwise exactly one JARVIS line follows, and it is the fallback exactly when nothing matched |
| Assistant.OnlySleepClearsAwake | script.js:254-258 | after a command, the assistant is awake exactly when it was awake before and the command was not the sleep command |
| Assistant.SpokenMatchesLogged | script.js:207-261 | with synthesis, after an answered command, the text last spoken equals the line logged exactly when the command was not the sleep command |
| Assistant.OpensOnlyForOpenAndSearch | script.js:216-241 | a command opens a page exactly when it is a site or search command that does not throw |
| Assistant.CommandKeepsRequests | script.js:195-263 | a command only appends requests, and it throws exactly when the dispatcher does |
| Assistant.ResultAlwaysStops | script.js:119-139 | every voice result ends with `recognition.stop()`, after the requests already made; a lower-cased transcript never throws first |
| Assistant.AsleepIgnoresSpeech | script.js:124-138 | asleep, a transcript without the phrase only stops recognition |
| Assistant.BarePhraseGreets | script.js:128-132 | the phrase alone wakes the assistant, speaks the prompt and stops recognition |
| Assistant.ResultAwakeness | script.js:124-138 | after a voice result, the assistant is awake exactly when it was awake or heard the phrase, and the forwarded command was not the sleep command |
| Assistant.OnlyPermissionErrorSpeaks | script.js:147-156 | every error clears the listening flag; only "not-allowed" is spoken about, and only with synthesis |
| Assistant.ToggleAsksOpposite | script.js:186-192 | the talk button asks to stop exactly when listening and to start exactly when not, and leaves the flag to the callbacks |
| Assistant.RestartOnlyWhenAwake | script.js:311-315 | when an utterance ends, recognition restarts exactly when auto-listen is on and the assistant is awake |
| Assistant.Session.constructor | script.js:20-26 | a new page is asleep, not listening, has spoken nothing and has an empty history |
| Assistant.Session.Speak | script.js:290-319 | the new state is `AfterSpeak` of the old one |
| Assistant.Session.AddToHistory | script.js:266-287 | the entry is appended to the history and nothing else changes |
| Assistant.Session.HandleCommand | script.js:195-263 | the new state and whether the call threw are `AfterCommand` of the old state |
| Assistant.Session.OnResult | script.js:119-139 | the new state is `AfterResult` of the old one |
| Assistant.Session.OnStart | script.js:113-117 | only `isListening` changes, and it becomes true |
| Assistant.Session.OnEnd | script.js:141-145 | only `isListening` changes, and it becomes false |
| Assistant.Session.OnError | script.js:147-156 | the new state is `AfterError` of the old one |
| Assistant.Session.ToggleListening | script.js:186-192 | the new state is `AfterToggle` of the old one |
| Assistant.Session.OnSpeechEnd | script.js:311-315 | the new state is `AfterSpeechEnd` of the old one |
| Runs.ListeningFollowsCallbacks | script.js:113-156 | `isListening` is set only by `onstart`, `onend` and `onerror`: after any sequence of events it is what the last of them left |
| Runs.RunExtends | script.js:266-319 | history lines and requests are never taken back, and synthesis support never changes |
| Runs.RunKeepsLog | script.js:195-263 | after any sequence of events, every USER line is non-empty, the history (without SYSTEM lines, which the model leaves out) starts with a USER line, and every JARVIS line directly follows a USER line |
| Runs.AsleepUntilWakePhrase | script.js:124-136 | asleep, the assistant stays asleep until a voice result contains the phrase; typed commands never wake it |
| Runs.LastSpokenNeverRead | script.js:22 | `lastSpokenText` is written but never read: sessions that differ only in it stay equal on everything else after any events |
| Runs.RunKeepsSpeech | script.js:290-319 | every utterance is queued right after a cancel; `lastSpokenText` is the text of the last utterance; without synthesis nothing is ever uttered |
| Runs.FromPageLoad | script.js:20-26 | from the globals' initial values (the page before its start-up greeting), after any events: the log is well formed, speech is consistent, the listening flag follows the callbacks, and the assistant sleeps while the phrase is never heard |
| Scenarios.SearchForGoogleOpensGoogle | script.js:216-220 | "search for google" opens Google: the Google test comes before the search test |
| Scenarios.TimeBeatsDate | script.js:204-215 | "what time is the date" tells the time: the "time" test comes before the "date" test |
| Scenarios.QueryStopsAtNextFor | script.js:237 | "search for information" searches for "in": the query stops at the "for" inside "information" |
| Scenarios.TypedUpperCaseForThrows | script.js:236-237 | typed "Search FOR cats" classifies as a search but has no lower-case "for", so the search branch throws |
| Scenarios.AsleepQuestionDropped | script.js:124-138 | asleep, "what time is it" is dropped and recognition is stopped |
| Scenarios.HeyJarvisGreets | script.js:125-132 | "hey jarvis" alone wakes the assistant, which answers with the prompt and stops recognition |
| Scenarios.HeyJarvisSleep | script.js:125-129 | "hey jarvis sleep" wakes the assistant, and the forwarded "sleep" puts it straight back to sleep, with the USER line "sleep" and the JARVIS line "Going to sleep" |

## Left out

- The DOM is not modelled: rendering, the icons, the listening animation, scrolling, the clock display and its one-second timer.
- The history is the sequence of entries `addToHistory` appends; the HTML it builds for each entry is not modelled.
- SYSTEM history entries are not modelled. `script.js` writes them from the start-up greeting one second after load (script.js:78-81), from the clear-history button (script.js:48-51), and from the unsupported-browser paths (script.js:102, 162). The log invariants of `Runs.RunKeepsLog` and `Runs.FromPageLoad` are about the USER and JARVIS lines only: on a real page the first line is the SYSTEM greeting.
- The clear-history button (script.js:46-53) is not modelled: it empties the displayed list and writes a SYSTEM line.
- Settings, `localStorage`, `parseFloat` of the rate and pitch, and voice selection are not modelled. The auto-listen checkbox is a parameter of the utterance's `onend`.
- The clock, the locale and randomness are parameters:
  - `toLocaleTimeString` and `toLocaleDateString` results are opaque strings in `Ambient`;
  - `Math.random` becomes the joke index in `Ambient`.
- `encodeURIComponent` is not modelled: the search target holds the raw query.
- The 500 ms `setTimeout` before the restart is not modelled; the restart is a request made when the utterance ends.
- Which utterance's `onend` fires after a `cancel` depends on the browser. Each `onend` is an event with the checkbox state.
- `recognition.start()` throwing when recognition is already running is not modelled; a start is a request.
- `Lower`: ASCII letters only. `toLowerCase` also maps non-ASCII letters, and that Unicode case mapping is not modelled.
- The Enter-key handler clears the input box after `handleCommand` returns. When the search branch throws, that clearing is skipped; the model has no input box, so this is not modelled.
- Initialization (`init`, the setup functions and the greeting) and the unsupported-browser paths are outside the modelled core. `Initial` is the state of the globals (script.js:21-26) before the greeting timer at script.js:78-81 fires; that greeting, and the spoken reply of the reset-settings button (script.js:68-72), are not events of the model.
- Behaviour `script.js` does not have, which the model does not add:
  - suppressing the assistant's own voice using `lastSpokenText`: the variable is written but never read, as `Runs.LastSpokenNeverRead` shows;
  - slot filling: "search for" with nothing after it searches for the empty query instead of asking for one;
  - continuous listening;
  - a blocked state after a "not-allowed" error: the code only speaks guidance and still accepts the talk button;
  - intents beyond the nine keyword rules (alarms, timers, calendar).
