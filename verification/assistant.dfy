/**
  The `run` loop of the assistant as a state machine.  One iteration is
  `Step`: it takes the transcription of one utterance (`None` when capture
  or recognition failed) and the outcomes the chat and weather services
  would give, and returns the next state and the action taken.
 */
module Assistant {
  import opened Common
  import opened Text
  import opened History
  import opened Weather
  import opened Router

  /**
    `Running` while the loop goes on; `Ended` after an exit command broke
    out of it; `Failed` after an exception escaped it (a weather question
    with no city ever named reads the unbound local `city`).
   */
  datatype Status = Running | Ended | Failed

  /**
    `listening` is `is_listening`; `history` is `conversation_history`;
    `city` is the local of `run` that keeps its value between iterations.
   */
  datatype State = State(listening: bool, history: seq<Turn>, city: Option<string>, status: Status)

  /** Process-wide configuration: the weather API key, if any. */
  datatype Config = Config(weatherKey: Option<string>)

  /** What the external services would answer in this iteration, if asked. */
  datatype Services = Services(chat: ChatOutcome, weather: Http)

  /** What one iteration did. */
  datatype Action =
    | Silent
    | Said(speech: string, url: Option<string>)
    | Chatted(input: string, reply: string)
    | Forecast(city: string, report: Report)
    | Crashed

  const Greeting: string :=
    "Hello! I'm your conversational assistant. I love to chat about anything and everything! What's on your mind today?"

  /** The state after the greeting: listening, no history, no city yet. */
  function Init(): (s: State)
    ensures s.listening && s.history == [] && s.city.None? && s.status == Running
  {
    State(true, [], None, Running)
  }

  /** A router branch was taken: speak, open the page, adjust the flag and the history. */
  function Obey(s: State, c: Command): (r: (State, Action))
    ensures r.1 == Said(Speech(c), Url(c))
    ensures r.0.status == s.status && r.0.city == s.city
    ensures r.0.listening == ListeningAfter(c, s.listening)
    ensures r.0.history == HistoryAfter(c, s.history)
  {
    (s.(listening := ListeningAfter(c, s.listening), history := HistoryAfter(c, s.history)), Said(Speech(c), Url(c)))
  }

  /** The separator the city is cut out with. */
  const InSep: string := " in "

  /** The city named in `u`: the stripped text between the first and second " in ". */
  function CityIn(u: string): (city: Option<string>)
    ensures city.Some? <==> Contains(u, InSep)
    ensures city.Some? ==> IsTrimmed(city.value) && !Contains(city.value, InSep)
  {
    if Contains(u, InSep) then
      SplitInTwo(u, InSep);
      var piece := Split(u, InSep)[1];
      SplitPiecesLackSep(u, InSep);
      StripKeepsAbsence(piece, InSep);
      Some(Strip(piece))
    else None
  }

  /**
    The city is the stripped text between the first " in " of the
    utterance and the next " in " after it, or the end of the utterance.
   */
  lemma CityBetweenSeparators(u: string)
    requires Contains(u, InSep)
    ensures CityIn(u) == Some(Strip(UpToFirst(AfterFirst(u, InSep), InSep)))
  {
    SplitSecondPiece(u, InSep);
  }

  /** An utterance the router passed on: a weather question or a chat turn. */
  function Conversation(cfg: Config, s: State, u: string, ext: Services): (r: (State, Action))
    requires s.status == Running
    ensures r.0.listening == s.listening
    ensures r.1.Chatted? <==> !Contains(u, "weather")
    ensures !Contains(u, "weather") ==> r.0.city == s.city
    ensures Contains(u, "weather") ==> r.0.history == s.history
    ensures r.0.status == Failed <==> Contains(u, "weather") && !Contains(u, InSep) && s.city.None?
  {
    if Contains(u, "weather") then
      var city := if Contains(u, InSep) then CityIn(u) else s.city;
      match city
      case None => (s.(status := Failed), Crashed)
      case Some(c) => (s.(city := city), Forecast(c, GetWeather(cfg.weatherKey, c, ext.weather)))
    else
      var ex := Converse(s.history, u, ext.chat);
      (s.(history := ex.history), Chatted(u, ex.reply))
  }

  /** One iteration of the `while True` loop of `run`; `StepFrame` states what it may change. */
  function Step(cfg: Config, s: State, input: Option<string>, ext: Services): (State, Action)
  {
    if s.status != Running then (s, Silent)
    else if input.None? || input.value == [] then (s, Silent)
    else
      var u := input.value;
      if s.listening then
        var routed := Route(u);
        if routed.Some? && Name(routed.value) == "exit" then
          var (s1, a) := Obey(s, routed.value);
          (s1.(status := Ended), a)
        else if routed.Some? && Name(routed.value) in SpecialCommands then
          Obey(s, routed.value)
        else
          Conversation(cfg, s, u, ext)
      else if AsksToResume(u) then
        // the router runs, but its result is thrown away
        match Route(u)
        case Some(c) => Obey(s, c)
        case None => (s, Silent)
      else (s, Silent)
  }

  /**
    What one iteration may change: nothing once stopped or without input;
    the listening flag only through the pause and resume branches; the
    history only through the clear branch or a chat call; and the chat
    backend is called exactly for a listening, unrouted, non-weather
    utterance.
   */
  lemma StepFrame(cfg: Config, s: State, input: Option<string>, ext: Services)
    // a stopped loop takes no more input
    ensures s.status != Running ==> Step(cfg, s, input, ext) == (s, Silent)
    // an absent or empty transcription changes nothing
    ensures input.None? || input.value == [] ==> Step(cfg, s, input, ext) == (s, Silent)
    // only the pause branch turns listening off, only the resume branch turns it on
    ensures var r := Step(cfg, s, input, ext);
      s.listening && !r.0.listening ==> input.Some? && Route(input.value) == Some(Pause)
    ensures var r := Step(cfg, s, input, ext);
      !s.listening && r.0.listening ==> input.Some? && Route(input.value) == Some(Resume)
    // the history changes only by the clear branch or by a chat call
    ensures var r := Step(cfg, s, input, ext);
      r.0.history != s.history ==>
        (input.Some? && Route(input.value) == Some(Clear) && r.0.history == []) || r.1.Chatted?
    // the chat backend is called exactly for a listening, unrouted, non-weather utterance
    ensures var r := Step(cfg, s, input, ext);
      r.1.Chatted? <==> (s.status == Running && s.listening && input.Some? && input.value != []
        && Route(input.value).None? && !Contains(input.value, "weather"))
    // a paused assistant never stops
    ensures !s.listening ==> Step(cfg, s, input, ext).0.status == s.status
  {
    StepMovesFlag(cfg, s, input, ext);
    StepMovesHistory(cfg, s, input, ext);
    StepCallsChat(cfg, s, input, ext);
  }

  /** Only the pause branch turns listening off, only the resume branch turns it on. */
  lemma StepMovesFlag(cfg: Config, s: State, input: Option<string>, ext: Services)
    ensures var r := Step(cfg, s, input, ext);
      s.listening && !r.0.listening ==> input.Some? && Route(input.value) == Some(Pause)
    ensures var r := Step(cfg, s, input, ext);
      !s.listening && r.0.listening ==> input.Some? && Route(input.value) == Some(Resume)
  {
  }

  /** The history changes only by the clear branch or by a chat call. */
  lemma StepMovesHistory(cfg: Config, s: State, input: Option<string>, ext: Services)
    ensures var r := Step(cfg, s, input, ext);
      r.0.history != s.history ==>
        (input.Some? && Route(input.value) == Some(Clear) && r.0.history == []) || r.1.Chatted?
  {
    if s.status == Running && input.Some? && input.value != [] {
      if s.listening {
        ListeningMovesHistory(cfg, s, input.value, ext);
      } else {
        PausedMovesHistory(cfg, s, input.value, ext);
      }
    }
  }

  /** Listening, the history changes only by the clear branch or by a chat call. */
  lemma ListeningMovesHistory(cfg: Config, s: State, u: string, ext: Services)
    requires s.status == Running && s.listening && u != []
    ensures var r := Step(cfg, s, Some(u), ext);
      r.0.history != s.history ==> (Route(u) == Some(Clear) && r.0.history == []) || r.1.Chatted?
  {
  }

  /** Paused, the history changes only when a resume phrase comes with a clear phrase. */
  lemma PausedMovesHistory(cfg: Config, s: State, u: string, ext: Services)
    requires s.status == Running && !s.listening && u != []
    ensures var r := Step(cfg, s, Some(u), ext);
      r.0.history != s.history ==> Route(u) == Some(Clear) && r.0.history == []
  {
  }

  /** The chat backend is called exactly for a listening, unrouted, non-weather utterance. */
  lemma StepCallsChat(cfg: Config, s: State, input: Option<string>, ext: Services)
    ensures var r := Step(cfg, s, input, ext);
      r.1.Chatted? <==> (s.status == Running && s.listening && input.Some? && input.value != []
        && Route(input.value).None? && !Contains(input.value, "weather"))
  {
  }

  // ---------------------------------------------------------------------------
  // Runs of the loop

  /** The loop fed one input per iteration; an iteration after the loop stopped is silent. */
  function Run(cfg: Config, s: State, inputs: seq<Option<string>>, exts: seq<Services>): (r: (State, seq<Action>))
    requires |inputs| == |exts|
    ensures |r.1| == |inputs|
    decreases |inputs|
  {
    if |inputs| == 0 then (s, [])
    else
      var step := Step(cfg, s, inputs[0], exts[0]);
      var rest := Run(cfg, step.0, inputs[1..], exts[1..]);
      (rest.0, [step.1] + rest.1)
  }

  /** A run is its first step followed by the run from the state that step reached. */
  lemma RunCons(cfg: Config, s: State, inputs: seq<Option<string>>, exts: seq<Services>,
                s1: State, a: Action, last: State, rest: seq<Action>)
    requires |inputs| == |exts| > 0
    requires Step(cfg, s, inputs[0], exts[0]) == (s1, a)
    requires Run(cfg, s1, inputs[1..], exts[1..]) == (last, rest)
    ensures Run(cfg, s, inputs, exts) == (last, [a] + rest)
  {
  }

  predicate AllSilent(acts: seq<Action>) {
    forall k :: 0 <= k < |acts| ==> acts[k] == Silent
  }

  /** Once the loop has stopped, the rest of the inputs are never looked at. */
  lemma {:induction false} RunStopped(cfg: Config, s: State, inputs: seq<Option<string>>, exts: seq<Services>)
    requires |inputs| == |exts| && s.status != Running
    ensures Run(cfg, s, inputs, exts).0 == s
    ensures AllSilent(Run(cfg, s, inputs, exts).1)
    decreases |inputs|
  {
    if |inputs| > 0 {
      RunStopped(cfg, s, inputs[1..], exts[1..]);
    }
  }

  /**
    The `while True` loop itself: step through the inputs and break out as
    soon as the loop stops.  The actions it took are a prefix of `Run`'s,
    and everything `Run` does after the break is silent.
   */
  method RunLoop(cfg: Config, s0: State, inputs: seq<Option<string>>, exts: seq<Services>)
    returns (s: State, acts: seq<Action>)
    requires |inputs| == |exts|
    ensures s == Run(cfg, s0, inputs, exts).0
    ensures |acts| <= |inputs| && acts == Run(cfg, s0, inputs, exts).1[..|acts|]
    ensures AllSilent(Run(cfg, s0, inputs, exts).1[|acts|..])
    ensures |acts| < |inputs| ==> s.status != Running
  {
    s := s0;
    acts := [];
    var k := 0;
    while k < |inputs|
      invariant 0 <= k <= |inputs| && |acts| == k
      invariant Run(cfg, s0, inputs, exts).0 == Run(cfg, s, inputs[k..], exts[k..]).0
      invariant Run(cfg, s0, inputs, exts).1 == acts + Run(cfg, s, inputs[k..], exts[k..]).1
      decreases |inputs| - k
    {
      if s.status != Running {
        RunStopped(cfg, s, inputs[k..], exts[k..]);
        return;
      }
      var next := Step(cfg, s, inputs[k], exts[k]);
      RunAdvances(cfg, s, inputs, exts, k, next.0, next.1, acts);
      s := next.0;
      acts := acts + [next.1];
      k := k + 1;
    }
  }

  /** One turn of the loop: what is left to run shrinks by the step just taken. */
  lemma RunAdvances(cfg: Config, s: State, inputs: seq<Option<string>>, exts: seq<Services>,
                    k: nat, s1: State, a: Action, acts: seq<Action>)
    requires |inputs| == |exts| && k < |inputs|
    requires Step(cfg, s, inputs[k], exts[k]) == (s1, a)
    ensures Run(cfg, s, inputs[k..], exts[k..]).0 == Run(cfg, s1, inputs[k + 1..], exts[k + 1..]).0
    ensures acts + Run(cfg, s, inputs[k..], exts[k..]).1
      == (acts + [a]) + Run(cfg, s1, inputs[k + 1..], exts[k + 1..]).1
  {
    assert inputs[k..][1..] == inputs[k + 1..] && exts[k..][1..] == exts[k + 1..];
    var later := Run(cfg, s1, inputs[k + 1..], exts[k + 1..]);
    RunCons(cfg, s, inputs[k..], exts[k..], s1, a, later.0, later.1);
    assert acts + ([a] + later.1) == (acts + [a]) + later.1;
  }

  // ---------------------------------------------------------------------------
  // Properties of one iteration

  /** While paused, input without a resume phrase is ignored: no action, no change. */
  lemma PausedIgnores(cfg: Config, s: State, input: Option<string>, ext: Services)
    requires !s.listening
    requires input.None? || !AsksToResume(input.value)
    ensures Step(cfg, s, input, ext) == (s, Silent)
  {
  }

  /**
    While paused, an utterance with a resume phrase goes through the
    router, which can only answer exit, pause or resume; its answer is
    discarded, so only the resume branch wakes the assistant and nothing
    ends the loop.
   */
  lemma PausedRoutesResumePhrase(cfg: Config, s: State, u: string, ext: Services)
    requires s.status == Running && !s.listening && AsksToResume(u)
    ensures Route(u) == Some(Exit) || Route(u) == Some(Pause) || Route(u) == Some(Resume)
    ensures Step(cfg, s, Some(u), ext)
      == (s.(listening := Route(u) == Some(Resume)), Said(Speech(Route(u).value), None))
  {
    var c := Route(u).value;
    assert c == Exit || c == Pause || c == Resume;
    assert Obey(s, c) == (s.(listening := c == Resume), Said(Speech(c), None));
  }

  /** Paused, "resume ... quit" speaks the goodbye but neither resumes nor ends the loop. */
  lemma PausedResumeQuit(cfg: Config, s: State, a: string, b: string, c: string, ext: Services)
    requires s.status == Running && !s.listening
    ensures var u := a + "resume" + b + "quit" + c;
      Step(cfg, s, Some(u), ext) == (s, Said(Speech(Exit), None))
  {
    var u := a + "resume" + b + "quit" + c;
    ExitWins(a + "resume" + b, 1, c);
    ContainsInfix(a, "resume", b + "quit" + c);
    assert a + "resume" + (b + "quit" + c) == u;
    PausedRoutesResumePhrase(cfg, s, u, ext);
    assert s.(listening := false) == s;
  }

  /** Paused, "pause ... resume" stays paused: the pause rule is checked first. */
  lemma PausedPauseResume(cfg: Config, s: State, a: string, b: string, c: string, ext: Services)
    requires s.status == Running && !s.listening
    requires !ContainsAny(a + "pause" + b + "resume" + c, ExitPhrases)
    ensures var u := a + "pause" + b + "resume" + c;
      Step(cfg, s, Some(u), ext) == (s, Said(Speech(Pause), None))
  {
    var u := a + "pause" + b + "resume" + c;
    ContainsInfix(a + "pause" + b, "resume", c);
    ContainsInfix(a, "pause", b + "resume" + c);
    assert a + "pause" + (b + "resume" + c) == u;
    assert Route(u) == Some(Pause);
    PausedRoutesResumePhrase(cfg, s, u, ext);
    assert s.(listening := false) == s;
  }

  /** Listening, an exit phrase anywhere ends the loop after the goodbye. */
  lemma ListeningExit(cfg: Config, s: State, a: string, k: nat, b: string, ext: Services)
    requires s.status == Running && s.listening && k < |ExitPhrases|
    ensures Step(cfg, s, Some(a + ExitPhrases[k] + b), ext)
      == (s.(status := Ended), Said(Speech(Exit), None))
  {
    var u := a + ExitPhrases[k] + b;
    ExitWins(a, k, b);
    assert Route(u) == Some(Exit);
    var (s1, act) := Obey(s, Exit);
    assert s1 == s && act == Said(Speech(Exit), None);
  }

  /** Listening, whatever the router reads as exit ends the loop after the goodbye. */
  lemma ListeningRoutedExit(cfg: Config, s: State, u: string, ext: Services)
    requires s.status == Running && s.listening && u != [] && Route(u) == Some(Exit)
    ensures Step(cfg, s, Some(u), ext) == (s.(status := Ended), Said(Speech(Exit), None))
  {
    var (s1, act) := Obey(s, Exit);
    assert s1 == s && act == Said(Speech(Exit), None);
  }

  /** Listening, the pause branch speaks its sentence and stops listening. */
  lemma ListeningPause(cfg: Config, s: State, u: string, ext: Services)
    requires s.status == Running && s.listening && u != [] && Route(u) == Some(Pause)
    ensures Step(cfg, s, Some(u), ext) == (s.(listening := false), Said(Speech(Pause), None))
  {
    ListeningCommand(cfg, s, u, ext);
  }

  /**
    Listening, every other router result is in `special_command_list`: the
    branch's effects are applied, no chat or weather call is made, and the
    loop continues.
   */
  lemma ListeningCommand(cfg: Config, s: State, u: string, ext: Services)
    requires s.status == Running && s.listening && u != []
    requires Route(u).Some? && Route(u) != Some(Exit)
    ensures Name(Route(u).value) in SpecialCommands
    ensures Step(cfg, s, Some(u), ext) == Obey(s, Route(u).value)
    ensures Step(cfg, s, Some(u), ext).0.status == Running
  {
    var c := Route(u).value;
    assert Name(c) == SpecialCommands[0] || Name(c) == SpecialCommands[1] || Name(c) == SpecialCommands[2]
      || Name(c) == SpecialCommands[3] || Name(c) == SpecialCommands[4];
  }

  /**
    Listening, an utterance the router passes on and that mentions weather
    is answered from `get_weather`: the city is the one named after " in ",
    or else the one remembered from an earlier iteration; with neither,
    the loop dies.  The history is left alone.
   */
  lemma ListeningWeather(cfg: Config, s: State, u: string, ext: Services)
    requires s.status == Running && s.listening
    requires Route(u).None? && Contains(u, "weather")
    ensures var r := Step(cfg, s, Some(u), ext);
      var city := if Contains(u, InSep) then CityIn(u) else s.city;
      r.0.history == s.history && r.0.listening
      && (city.None? ==> r == (s.(status := Failed), Crashed))
      && (city.Some? ==> r == (s.(city := city), Forecast(city.value, GetWeather(cfg.weatherKey, city.value, ext.weather))))
  {
  }

  /** Without a weather key the answer is the fixed apology and no request is sent. */
  lemma WeatherWithoutKey(cfg: Config, s: State, u: string, ext: Services)
    requires s.status == Running && s.listening && !HasKey(cfg.weatherKey)
    requires Route(u).None? && Contains(u, "weather") && (Contains(u, InSep) || s.city.Some?)
    ensures var a := Step(cfg, s, Some(u), ext).1;
      a.Forecast? && a.report == Report(NoKeySentence, false)
  {
  }

  /** Listening, an unrouted utterance without "weather" is one chat call on the history. */
  lemma ListeningChat(cfg: Config, s: State, u: string, ext: Services)
    requires s.status == Running && s.listening && u != []
    requires Route(u).None? && !Contains(u, "weather")
    ensures var ex := Converse(s.history, u, ext.chat);
      Step(cfg, s, Some(u), ext) == (s.(history := ex.history), Chatted(u, ex.reply))
  {
  }
}
