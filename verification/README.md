# Conversational voice assistant: decision logic in Dafny

`voiceAIAssistant.py` is a voice assistant that runs in a loop. It listens to
an utterance, which is transcribed and lower-cased. A command router
(`handle_special_commands`) gives it the first chance to act: the router
exits, pauses, resumes, clears the conversation, opens Google or YouTube, or
searches Google. Anything the router does not take goes to the weather
service, when the utterance mentions "weather", or else to a chat model. The
chat model is given the running conversation history.

This project models the decision logic of that program, with every external
service abstracted away. The model has these parts:

- The **router** `Router.Route` is the first-match-wins chain of phrase
  tests. Its side effects are returned as data:
  - the sentence spoken (`Speech`);
  - the page opened (`Url`);
  - the new listening flag (`ListeningAfter`);
  - the new history (`HistoryAfter`).

  `Router.Classify` is an independent second definition of the router: an
  ordered table of rules. `RouteFollowsRules` proves the two agree.
- The **history** update of `get_conversational_response` is
  `History.Remember` and `History.Converse`. The chat model's answer is an
  abstract `ChatOutcome`: a reply, or an exception.
- The **weather sentence** chosen by `get_weather` is `Weather.GetWeather`.
  The HTTP request is an abstract `Http` outcome.
- The **loop** `run` is `Assistant.Step`, a function from a state and one
  optional utterance to the next state and the action taken. The state holds:
  - the `is_listening` flag;
  - the history;
  - the `city` local, which survives between iterations;
  - a status: running, ended by exit, or failed by an escaped exception.

  `Assistant.Run` folds `Step` over a sequence of inputs.
  `Assistant.RunLoop` is the loop written with `break`. It is proved to end
  in `Run`'s final state, having taken a prefix of `Run`'s actions, and
  everything `Run` does after the break is silent.
- The **Python string operations** the logic uses are in `Text`: `in`,
  `replace`, `split` and `strip()`. Each is defined the way CPython computes
  it and tied to an independent characterisation. `Find`, the
  first-occurrence search, is what `split` scans with. `Join` is not called
  by the program; it is the reference definition that `Replace` and `Split`
  are related to.

Where the program's own comments or help text promise more than the code
does, the model follows the code:

- There is no default city. A weather question that names no city after
  `" in "`, asked before any city was ever named, reads the unbound local
  `city`. The exception ends `run`, and the model records this as status
  `Failed`.
- The city is everything between the first and the second `" in "`,
  stripped. There is no `" for "` parsing and no trimming of a trailing
  "please".
- The comment "last 30 messages" is not an invariant. One turn is dropped
  only when the list exceeds thirty after the user turn is appended. A
  successful call then appends the assistant turn, so the history grows
  without bound.
- While paused, the router's result is discarded. So "resume … quit" speaks
  the goodbye, yet neither resumes nor ends the loop.

## Model

| member | source | states |
|---|---|---|
| Router.Route | voiceAIAssistant.py:172-219 | The router answers exit exactly when a phrase of `end_conversation_list` occurs. A search always carries a non-empty, stripped query built from the utterance. `None` is answered only when neither an exit phrase nor a resume phrase occurs. |
| Router.RouteFollowsRules | voiceAIAssistant.py:175-219 | The elif chain equals a table of seven ordered rules: the first rule with any of its phrases in the utterance decides, and an empty search query decides `None`. |
| Router.ExitWins | voiceAIAssistant.py:176-178 | Any text containing any exit phrase, whatever else it contains, routes to exit. |
| Router.OpenGoogleIsNeverSearch | voiceAIAssistant.py:199-212 | Text containing "open google" or "open chrome" never routes to search, to YouTube, or to `None`. With no phrase of an earlier rule present, it opens https://google.com. |
| Router.SearchUrlHasNoSpace | voiceAIAssistant.py:212-216 | The search URL has no space. It is the prefix plus exactly one character per query character, and the query is non-empty and stripped. |
| Router.EmptySearchFallsThrough | voiceAIAssistant.py:210-219 | When the search rule is the first to fire but the query strips to nothing, the router answers `None`. |
| Router.Url | voiceAIAssistant.py:199-216 | A page is opened exactly for the web and search branches. |
| Router.ListeningAfter | voiceAIAssistant.py:181-190 | Only the pause branch turns listening off, and only the resume branch turns it on. Every other branch keeps the flag. |
| Router.HistoryAfter | voiceAIAssistant.py:192-196 | Only the clear branch changes the history, and it empties it. |
| Text.FindSpec | voiceAIAssistant.py:255 | The search that `split(" in ")` performs to find its cut point succeeds exactly when the separator occurs, and it finds the first occurrence. |
| Text.SplitSecondPiece | voiceAIAssistant.py:255 | The second piece of a split, the one `[1]` selects, is the text between the first separator and the next one, or the end of the string. |
| Text.ReplaceIsJoinOfSplit | voiceAIAssistant.py:212 | Replacing by a left-to-right scan equals cutting at every occurrence and joining the pieces with the replacement. |
| Text.ReplaceChar | voiceAIAssistant.py:214 | Replacing one character by another maps the string pointwise, keeping its length. |
| Text.ReplaceCharRemoves | voiceAIAssistant.py:214 | After `' '` is replaced by `'+'`, no space is left. |
| Text.SplitInTwo | voiceAIAssistant.py:253-255 | `split` gives two or more pieces exactly when the separator occurs, so `[1]` cannot fail after the `" in "` test. |
| Text.SplitPiecesLackSep | voiceAIAssistant.py:255 | No piece of a split contains the separator. |
| Text.JoinSplit | voiceAIAssistant.py:255 | Joining the pieces of a split with the separator gives back the original string. |
| Text.StripSpec | voiceAIAssistant.py:212 | The stripped result occurs in the input with only whitespace on either side of it. It is empty exactly when the input is all whitespace. |
| Text.StripPadded | voiceAIAssistant.py:212 | Stripping removes exactly the whitespace around a non-empty middle whose ends are not whitespace. |
| Text.StripIdempotent | voiceAIAssistant.py:255 | Stripping twice is stripping once. |
| History.Remember | voiceAIAssistant.py:126-130 | The new turn is last. The turns before it are the newest of the old ones, in their old order. At most the single oldest turn is dropped, and only when the list already held thirty or more. |
| History.Converse | voiceAIAssistant.py:124-170 | Exact length recurrence: the trim adds 0 or 1, and an answered call adds 1 more. The user turn is kept even when the call fails. The spoken reply is the chat text or the fixed fallback. |
| History.ReplayOutgrowsCap | voiceAIAssistant.py:126-162 | From thirty or more turns, each answered call grows the history by exactly one, so thirty is not a bound. |
| History.ReplayAnsweredGrows | voiceAIAssistant.py:126-162 | Any run of answered calls adds at least one turn per call. |
| History.ReplayFailuresBounded | voiceAIAssistant.py:126-170 | Failed calls alone fill the history up to thirty and then only rotate it. |
| Weather.GetWeather | voiceAIAssistant.py:92-120 | Without a key, the fixed apology is returned and no request is sent. With a key, a request is sent and each branch gives its sentence: on 200 with fields, the forecast for the city; on another status, the unavailable sentence for the city; on an exception or a 200 missing its fields, the trouble sentence. The sentence is never empty. |
| Weather.TroubleExactlyOnFailure | voiceAIAssistant.py:97-120 | With a key, the trouble sentence is spoken exactly when the request raised or a 200 answer lacked its fields, never for a forecast or a non-200 status, whatever the city. |
| Weather.ReportNamesCity | voiceAIAssistant.py:108-117 | Whenever the service answered with a status, the sentence names the city. On 200 it also names the weather description. |
| Assistant.Init | voiceAIAssistant.py:47-50 | The assistant starts listening, with no history and no city. |
| Assistant.Obey | voiceAIAssistant.py:172-219 | A routed branch speaks its sentence and opens its page. It changes only the listening flag and the history, each as the branch prescribes. |
| Assistant.CityIn | voiceAIAssistant.py:253-257 | A city is extracted exactly when `" in "` occurs. It is stripped and never itself contains `" in "`. |
| Assistant.CityBetweenSeparators | voiceAIAssistant.py:253-255 | For every utterance containing `" in "`, the city is the stripped text between the first `" in "` and the next one, or the end of the utterance. |
| Assistant.Conversation | voiceAIAssistant.py:249-265 | An unrouted utterance makes a chat call exactly when it lacks "weather". A weather question leaves the history alone. The city changes only on the weather path. The loop fails exactly when the weather path has no city. |
| Assistant.StepFrame | voiceAIAssistant.py:236-270 | A stopped loop or an empty input changes nothing. Only pause and resume move the flag, and only clear or a chat call moves the history. The chat backend is called exactly for a listening, unrouted, non-weather utterance. A paused assistant never stops. |
| Assistant.Run | voiceAIAssistant.py:236-270 | One action is recorded per input. |
| Assistant.RunCons | voiceAIAssistant.py:236-270 | A run is its first iteration followed by the run from the state that iteration reached. |
| Assistant.RunStopped | voiceAIAssistant.py:245-246 | After the loop has stopped, no later input changes the state or produces an action. |
| Assistant.RunLoop | voiceAIAssistant.py:236-270 | The `while True` loop that breaks on exit ends in `Run`'s final state. Its actions are a prefix of `Run`'s, everything after the break is silent, and it stops early only once the loop is no longer running. |
| Assistant.PausedIgnores | voiceAIAssistant.py:266-270 | While paused, a missing input, or one without "start listening" or "resume", changes nothing and does nothing. |
| Assistant.PausedRoutesResumePhrase | voiceAIAssistant.py:266-270 | While paused, an utterance with a resume phrase routes to exit, pause or resume. Only resume wakes the assistant, and none ends the loop. |
| Assistant.PausedResumeQuit | voiceAIAssistant.py:266-270 | While paused, "resume … quit" speaks the goodbye but stays paused and keeps running. |
| Assistant.PausedPauseResume | voiceAIAssistant.py:266-270 | While paused, "pause … resume" (with no exit phrase) speaks the pause sentence and stays paused. |
| Assistant.ListeningExit | voiceAIAssistant.py:243-246 | While listening, an exit phrase anywhere ends the loop after the goodbye, with nothing else changed. |
| Assistant.ListeningRoutedExit | voiceAIAssistant.py:243-246 | While listening, any utterance routed to exit ends the loop after the goodbye. |
| Assistant.ListeningPause | voiceAIAssistant.py:180-184 | While listening, the pause branch speaks its sentence and only turns listening off. |
| Assistant.ListeningCommand | voiceAIAssistant.py:245-248 | Every non-exit router result is in `special_command_list`. Its branch's effects are applied, no service is called, and the loop keeps running. |
| Assistant.ListeningWeather | voiceAIAssistant.py:251-260 | An unrouted weather question uses the city after `" in "`, else the remembered one, else the loop fails. The history is untouched. |
| Assistant.WeatherWithoutKey | voiceAIAssistant.py:94-95 | Without a weather key, a weather question is answered with the fixed apology and no request. |
| Assistant.ListeningChat | voiceAIAssistant.py:261-265 | An unrouted utterance without "weather" is exactly one chat call on the current history. |
| Scenarios.PausedSession | voiceAIAssistant.py:236-270 | Paused, "tell me a joke", "resume", "exit" gives: ignored, resumed, ended. |
| Scenarios.SearchForCats | voiceAIAssistant.py:210-217 | "search for cats" routes to a search for "cats". |
| Scenarios.CatsUrl | voiceAIAssistant.py:214 | The search for "cats" opens https://google.com/search?q=cats. |
| Scenarios.SearchForNothing | voiceAIAssistant.py:210-219 | "search for " routes to `None` and becomes a chat call. |
| Scenarios.CityKeepsTrailingWords | voiceAIAssistant.py:253-255 | "weather in paris please" asks about the city "paris please". |
| Scenarios.CityStopsAtSecondIn | voiceAIAssistant.py:253-255 | "weather in paris in june" asks about the city "paris". |
| Scenarios.ThresholdExceeded | voiceAIAssistant.py:126-162 | An answered call on a thirty-turn history leaves thirty-one turns. |

## Left out

- Microphone capture, noise calibration and speech recognition
  (`listen_to_user`, lines 58-83) are hardware and network I/O. Only their
  result is modelled, as an optional utterance per iteration.
- The lower-casing of the transcript (line 70) is not modelled, because
  Unicode case mapping is out of scope. The model takes the transcript as
  already lower-cased.
- The text-to-speech engine and its timing workaround (lines 30-43, 85-90)
  are a foreign library. Speech is recorded in the action instead.
- The initial greeting (line 234) is a constant (`Assistant.Greeting`). It
  is not one of the loop's actions.
- The chat-completion call and its system prompt (lines 133-159) are a
  remote service, modelled as an abstract `ChatOutcome`.
- The HTTP request, JSON field access and the `.1f` temperature formatting
  (lines 97-115) are network I/O and floating point. The temperature
  arrives as an already-rendered string, and a missing field is a 200
  answer with no reading.
- Opening the browser (lines 201, 206, 216) is returned as the URL of the
  action.
- Logging, `.env` loading and the interrupt handling of `main`
  (lines 272-282) are left out. The only part that matters to the logic,
  an exception escaping `run`, is the status `Failed`.
- Text.Replace: defined only for a non-empty pattern. The program only
  replaces "search for", "google" and " ".
- Text.Split: defined only for a non-empty separator. The program only
  splits on " in ".
- Assistant.Run: its own contract only fixes the number of actions. What
  each iteration does is stated by `StepFrame` and the `Paused…` and
  `Listening…` lemmas, and `RunCons` relates a run to its first iteration.
