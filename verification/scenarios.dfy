/**
  Concrete conversations worked through the model: a paused session, the
  search examples, the city extraction and the thirty-turn threshold.
  Each literal utterance is passed in as a parameter fixed by `requires`.
 */
module Scenarios {
  import opened Common
  import opened Text
  import opened History
  import opened Router
  import opened Assistant

  lemma ContainsWhole(s: string)
    ensures Contains(s, s)
  {
    assert OccursAt(s, s, 0);
  }

  lemma RouteResume(u: string)
    requires u == "resume"
    ensures AsksToResume(u) && Route(u) == Some(Resume)
  {
    MissingChar(u, "exit", 1);
    MissingChar(u, "quit", 0);
    MissingChar(u, "goodbye", 0);
    MissingChar(u, "stop assistant", 1);
    MissingChar(u, "shut down", 1);
    MissingChar(u, "stop listening", 1);
    MissingChar(u, "pause", 0);
    ContainsWhole(u);
  }

  /**
    A paused assistant told "tell me a joke", then "resume", then "exit"
    ignores the joke request, wakes up, and ends the loop after the goodbye.
   */
  lemma PausedSession(cfg: Config, s: State, exts: seq<Services>, u1: string, u2: string, u3: string)
    requires s.status == Running && !s.listening && |exts| == 3
    requires u1 == "tell me a joke" && u2 == "resume" && u3 == "exit"
    ensures Run(cfg, s, [Some(u1), Some(u2), Some(u3)], exts)
      == (s.(listening := true, status := Ended), [Silent, Said(Speech(Resume), None), Said(Speech(Exit), None)])
  {
    JokeIsNoResume(u1);
    RouteResume(u2);
    RouteExit(u3);
    IgnoreTail(cfg, s, exts, u1, u2, u3);
  }

  lemma JokeIsNoResume(u: string)
    requires u == "tell me a joke"
    ensures !AsksToResume(u)
  {
    MissingChar(u, "start listening", 0);
    MissingChar(u, "resume", 0);
  }

  lemma RouteExit(u: string)
    requires u == "exit"
    ensures Route(u) == Some(Exit)
  {
    ExitWins("", 0, "");
    assert "" + ExitPhrases[0] + "" == u;
  }

  /** From a paused state: an ignored utterance, resume, exit. */
  lemma IgnoreTail(cfg: Config, s: State, exts: seq<Services>, u3: string, u4: string, u5: string)
    requires s.status == Running && !s.listening && |exts| == 3 && u4 != [] && u5 != []
    requires !AsksToResume(u3) && AsksToResume(u4) && Route(u4) == Some(Resume) && Route(u5) == Some(Exit)
    ensures Run(cfg, s, [Some(u3), Some(u4), Some(u5)], exts)
      == (s.(listening := true, status := Ended), [Silent, Said(Speech(Resume), None), Said(Speech(Exit), None)])
  {
    var inputs := [Some(u3), Some(u4), Some(u5)];
    assert inputs[1..] == [Some(u4), Some(u5)];
    PausedIgnores(cfg, s, Some(u3), exts[0]);
    ResumeTail(cfg, s, exts[1..], u4, u5);
    assert Step(cfg, s, inputs[0], exts[0]) == (s, Silent);
    assert [Silent] + [Said(Speech(Resume), None), Said(Speech(Exit), None)]
      == [Silent, Said(Speech(Resume), None), Said(Speech(Exit), None)];
  }

  /** From a paused state: resume, exit. */
  lemma ResumeTail(cfg: Config, s: State, exts: seq<Services>, u4: string, u5: string)
    requires s.status == Running && !s.listening && |exts| == 2 && u4 != [] && u5 != []
    requires AsksToResume(u4) && Route(u4) == Some(Resume) && Route(u5) == Some(Exit)
    ensures Run(cfg, s, [Some(u4), Some(u5)], exts)
      == (s.(listening := true, status := Ended), [Said(Speech(Resume), None), Said(Speech(Exit), None)])
  {
    var inputs := [Some(u4), Some(u5)];
    assert inputs[1..] == [Some(u5)];
    PausedRoutesResumePhrase(cfg, s, u4, exts[0]);
    ExitTail(cfg, s.(listening := true), exts[1..], u5);
    var a := Said(Speech(Resume), None);
    assert Step(cfg, s, inputs[0], exts[0]) == (s.(listening := true), a);
    assert [a] + [Said(Speech(Exit), None)] == [a, Said(Speech(Exit), None)];
  }

  /** From a listening state: exit. */
  lemma ExitTail(cfg: Config, s: State, exts: seq<Services>, u5: string)
    requires s.status == Running && s.listening && |exts| == 1 && u5 != [] && Route(u5) == Some(Exit)
    ensures Run(cfg, s, [Some(u5)], exts) == (s.(status := Ended), [Said(Speech(Exit), None)])
  {
    ListeningRoutedExit(cfg, s, u5, exts[0]);
    var inputs := [Some(u5)];
    assert inputs[0] == Some(u5) && |inputs[1..]| == 0;
    var a := Said(Speech(Exit), None);
    assert Run(cfg, s.(status := Ended), inputs[1..], exts[1..]) == (s.(status := Ended), []);
    assert [a] + [] == [a];
  }

  /** The query of "search for cats" is "cats". */
  lemma QueryOfSearchForCats(u: string)
    requires u == "search for cats"
    ensures SearchQuery(u) == "cats"
  {
    assert u[..10] == "search for" && u[10..] == " cats";
    assert Replace(u, "search for", "") == " cats";
    assert Replace(" cats", "google", "") == " cats";
    StripPadded(" ", "cats", "");
    assert " " + "cats" + "" == " cats";
  }

  /** An utterance that reaches the search rule with a non-empty query is a search. */
  lemma SearchBranch(u: string)
    requires !ContainsAny(u, ExitPhrases) && !Contains(u, "stop listening") && !Contains(u, "pause")
    requires !AsksToResume(u) && !Contains(u, "clear conversation") && !Contains(u, "forget conversation")
    requires !Contains(u, "start over") && !Contains(u, "open google") && !Contains(u, "open chrome")
    requires !Contains(u, "open youtube") && Contains(u, "search for") && SearchQuery(u) != []
    ensures Route(u) == Some(Search(SearchQuery(u)))
  {
  }

  /** "search for cats" searches for "cats". */
  lemma SearchForCats(u: string)
    requires u == "search for cats"
    ensures Route(u) == Some(Search("cats"))
  {
    ReachesSearchRule(u);
    QueryOfSearchForCats(u);
    SearchBranch(u);
  }

  /** "search for cats" has no phrase of an earlier rule, and has "search for". */
  lemma ReachesSearchRule(u: string)
    requires u == "search for cats"
    ensures !ContainsAny(u, ExitPhrases) && !Contains(u, "stop listening") && !Contains(u, "pause")
    ensures !AsksToResume(u) && !Contains(u, "clear conversation") && !Contains(u, "forget conversation")
    ensures !Contains(u, "start over") && !Contains(u, "open google") && !Contains(u, "open chrome")
    ensures !Contains(u, "open youtube") && Contains(u, "search for")
  {
    SearchForCatsNoExit(u);
    SearchForCatsNoOther(u);
    ContainsInfix("", "search for", " cats");
    assert "" + "search for" + " cats" == u;
  }

  lemma SearchForCatsNoExit(u: string)
    requires u == "search for cats"
    ensures !ContainsAny(u, ExitPhrases)
  {
    MissingChar(u, "exit", 1);
    MissingChar(u, "quit", 0);
    MissingChar(u, "goodbye", 0);
    MissingChar(u, "stop assistant", 3);
    MissingChar(u, "shut down", 2);
  }

  lemma SearchForCatsNoOther(u: string)
    requires u == "search for cats"
    ensures !Contains(u, "stop listening") && !Contains(u, "pause") && !AsksToResume(u)
    ensures !Contains(u, "clear conversation") && !Contains(u, "forget conversation") && !Contains(u, "start over")
    ensures !Contains(u, "open google") && !Contains(u, "open chrome") && !Contains(u, "open youtube")
  {
    MissingChar(u, "stop listening", 3);
    MissingChar(u, "pause", 0);
    MissingChar(u, "start listening", 6);
    MissingChar(u, "resume", 3);
    MissingChar(u, "clear conversation", 1);
    MissingChar(u, "forget conversation", 3);
    MissingChar(u, "start over", 7);
    MissingChar(u, "open google", 1);
    MissingChar(u, "open chrome", 1);
    MissingChar(u, "open youtube", 1);
  }

  /** The page opened for the query "cats". */
  lemma CatsUrl(q: string)
    requires q == "cats"
    ensures Url(Search(q)) == Some("https://google.com/search?q=cats")
  {
    MissingChar(q, " ", 0);
    ReplaceAbsent(q, " ", "+");
    assert SearchUrl(q) == SearchPrefix + q;
    assert SearchPrefix + q == "https://google.com/search?q=cats";
  }

  /** "search for " reaches the search rule, and mentions no weather. */
  lemma ReachesEmptySearch(u: string)
    requires u == "search for "
    ensures !ContainsAny(u, ExitPhrases) && !Contains(u, "stop listening") && !Contains(u, "pause")
    ensures !AsksToResume(u) && !Contains(u, "clear conversation") && !Contains(u, "forget conversation")
    ensures !Contains(u, "start over") && !Contains(u, "open google") && !Contains(u, "open chrome")
    ensures !Contains(u, "open youtube") && Contains(u, "search for") && !Contains(u, "weather")
  {
    SearchForNoExit(u);
    SearchForNoOther(u);
    ContainsInfix("", "search for", " ");
    assert "" + "search for" + " " == u;
  }

  lemma SearchForNoExit(u: string)
    requires u == "search for "
    ensures !ContainsAny(u, ExitPhrases)
  {
    MissingChar(u, "exit", 1);
    MissingChar(u, "quit", 0);
    MissingChar(u, "goodbye", 0);
    MissingChar(u, "stop assistant", 1);
    MissingChar(u, "shut down", 2);
  }

  lemma SearchForNoOther(u: string)
    requires u == "search for "
    ensures !Contains(u, "stop listening") && !Contains(u, "pause") && !AsksToResume(u)
    ensures !Contains(u, "clear conversation") && !Contains(u, "forget conversation") && !Contains(u, "start over")
    ensures !Contains(u, "open google") && !Contains(u, "open chrome") && !Contains(u, "open youtube")
    ensures !Contains(u, "weather")
  {
    MissingChar(u, "stop listening", 1);
    MissingChar(u, "pause", 0);
    MissingChar(u, "start listening", 1);
    MissingChar(u, "resume", 3);
    MissingChar(u, "clear conversation", 1);
    MissingChar(u, "forget conversation", 3);
    MissingChar(u, "start over", 1);
    MissingChar(u, "open google", 1);
    MissingChar(u, "open chrome", 1);
    MissingChar(u, "open youtube", 1);
    MissingChar(u, "weather", 0);
  }

  /** The query of "search for " strips to nothing. */
  lemma QueryOfSearchForNothing(u: string)
    requires u == "search for "
    ensures SearchQuery(u) == []
  {
    assert u[..10] == "search for" && u[10..] == " ";
    assert Replace(u, "search for", "") == " ";
    assert Replace(" ", "google", "") == " ";
    assert AllSpace(" ");
  }

  /**
    "search for " leaves an empty query: no command, so a listening
    assistant sends the words to the chat backend.
   */
  lemma SearchForNothing(cfg: Config, s: State, u: string, ext: Services)
    requires u == "search for " && s.status == Running && s.listening
    ensures Route(u) == None
    ensures Step(cfg, s, Some(u), ext).1.Chatted?
  {
    ReachesEmptySearch(u);
    QueryOfSearchForNothing(u);
    ListeningChat(cfg, s, u, ext);
  }

  /** The city of "weather in paris please" runs to the end of the utterance: " please" is kept. */
  lemma CityKeepsTrailingWords(u: string)
    requires u == "weather in paris please"
    ensures CityIn(u) == Some("paris please")
  {
    assert OccursAt(u, InSep, 7) && u[..7] == "weather";
    FindAtFirstChar(u, InSep, 7);
    CityBetweenSeparators(u);
    var rest := u[11..];
    assert AfterFirst(u, InSep) == rest;
    WholeRestIsCity(rest);
  }

  lemma WholeRestIsCity(rest: string)
    requires rest == "paris please"
    ensures Strip(UpToFirst(rest, InSep)) == rest
  {
    MissingChar(rest, InSep, 2);
    FindSpec(rest, InSep);
    assert UpToFirst(rest, InSep) == rest;
    assert rest[0] == 'p' && rest[|rest| - 1] == 'e';
    StripTrimmed(rest);
  }

  /** The city of "weather in paris in june" stops at the second " in ". */
  lemma CityStopsAtSecondIn(u: string)
    requires u == "weather in paris in june"
    ensures CityIn(u) == Some("paris")
  {
    assert OccursAt(u, InSep, 7) && u[..7] == "weather";
    FindAtFirstChar(u, InSep, 7);
    CityBetweenSeparators(u);
    var rest := u[11..];
    assert AfterFirst(u, InSep) == rest;
    FirstPieceIsParis(rest);
  }

  lemma FirstPieceIsParis(rest: string)
    requires rest == "paris in june"
    ensures Strip(UpToFirst(rest, InSep)) == "paris"
  {
    assert OccursAt(rest, InSep, 5) && rest[..5] == "paris";
    FindAtFirstChar(rest, InSep, 5);
    assert UpToFirst(rest, InSep) == "paris";
    StripTrimmed("paris");
  }

  /** A full thirty-turn history outgrows the threshold on an answered call. */
  lemma ThresholdExceeded(h: seq<Turn>, u: string, text: string)
    requires |h| == MaxHistory
    ensures |Converse(h, u, Reply(text)).history| == MaxHistory + 1
  {
  }
}
