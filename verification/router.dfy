/**
  `handle_special_commands`: a first-match-wins classifier over the
  lower-cased utterance.  Its side effects (the sentence spoken, the page
  opened, the change to the listening flag, the clearing of the history)
  are returned as data by `Speech`, `Url`, `ListeningAfter` and
  `HistoryAfter` instead of being performed.
 */
module Router {
  import opened Common
  import opened Text
  import opened History

  /** `end_conversation_list`. */
  const ExitPhrases: seq<string> := ["exit", "quit", "goodbye", "stop assistant", "shut down"]

  /** `special_command_list`: the router results after which the loop simply continues. */
  const SpecialCommands: seq<string> := ["pause", "resume", "clear", "web", "search"]

  datatype Site = Google | YouTube

  /** A non-`None` result of the router; `Name` gives the string the source returns. */
  datatype Command = Exit | Pause | Resume | Clear | Web(site: Site) | Search(query: string)

  function Name(c: Command): string {
    match c
    case Exit => "exit"
    case Pause => "pause"
    case Resume => "resume"
    case Clear => "clear"
    case Web(_) => "web"
    case Search(_) => "search"
  }

  function SiteUrl(site: Site): string {
    match site
    case Google => "https://google.com"
    case YouTube => "https://youtube.com"
  }

  const SearchPrefix: string := "https://google.com/search?q="

  /** The query of the search branch: drop every "search for", then every "google", then strip. */
  function SearchQuery(u: string): string {
    Strip(Replace(Replace(u, "search for", ""), "google", ""))
  }

  /** The search page opened for query `q`: its spaces become `+`. */
  function SearchUrl(q: string): string {
    SearchPrefix + Replace(q, " ", "+")
  }

  /** The phrases that let an utterance through while the assistant is paused. */
  predicate AsksToResume(u: string) {
    Contains(u, "start listening") || Contains(u, "resume")
  }

  /** `handle_special_commands(u)`: `None` hands the utterance on to conversation. */
  function Route(u: string): (r: Option<Command>)
    ensures r == Some(Exit) <==> ContainsAny(u, ExitPhrases)
    ensures r.Some? && r.value.Search? ==>
      r.value.query == SearchQuery(u) && r.value.query != [] && IsTrimmed(r.value.query)
    ensures r.None? ==> !ContainsAny(u, ExitPhrases) && !AsksToResume(u)
  {
    if ContainsAny(u, ExitPhrases) then Some(Exit)
    else if Contains(u, "stop listening") || Contains(u, "pause") then Some(Pause)
    else if Contains(u, "start listening") || Contains(u, "resume") then Some(Resume)
    else if Contains(u, "clear conversation") || Contains(u, "forget conversation")
      || Contains(u, "start over") then Some(Clear)
    else if Contains(u, "open google") || Contains(u, "open chrome") then Some(Web(Google))
    else if Contains(u, "open youtube") then Some(Web(YouTube))
    else if Contains(u, "search for") || Contains(u, "google") then
      var q := SearchQuery(u);
      if q != [] then Some(Search(q)) else None
    else None
  }

  // ---------------------------------------------------------------------------
  // Side effects of a matched branch, as data

  /** The sentence the branch speaks. */
  function Speech(c: Command): string {
    match c
    case Exit => "It was great talking with you! Goodbye!"
    case Pause => "I'll pause for a moment. Say 'start listening' when you're ready to chat again."
    case Resume => "I'm back! What would you like to talk about?"
    case Clear => "Fresh start! I've cleared our conversation. What's on your mind?"
    case Web(Google) => "Opening Google for you!"
    case Web(YouTube) => "Opening YouTube! Enjoy!"
    case Search(q) => "Searching for " + q + "! Here you go."
  }

  /** The page the branch opens in the browser, if any. */
  function Url(c: Command): (r: Option<string>)
    ensures r.Some? <==> c.Web? || c.Search?
  {
    match c
    case Web(site) => Some(SiteUrl(site))
    case Search(q) => Some(SearchUrl(q))
    case _ => None
  }

  /** `is_listening` after the branch ran: only pause clears it, only resume sets it. */
  function ListeningAfter(c: Command, listening: bool): (r: bool)
    ensures r != listening ==> (c == Pause && listening) || (c == Resume && !listening)
    ensures c == Pause ==> !r
    ensures c == Resume ==> r
  {
    match c
    case Pause => false
    case Resume => true
    case _ => listening
  }

  /** The history after the branch ran: only the clear branch touches it, and empties it. */
  function HistoryAfter(c: Command, h: seq<Turn>): (r: seq<Turn>)
    ensures r != h ==> c == Clear
    ensures c == Clear ==> r == []
  {
    if c == Clear then [] else h
  }

  // ---------------------------------------------------------------------------
  // The same classifier as an ordered table of rules

  datatype Kind = ExitKind | PauseKind | ResumeKind | ClearKind | OpenKind(site: Site) | SearchKind

  /** A rule fires when the utterance contains any of its phrases. */
  datatype Rule = Rule(phrases: seq<string>, kind: Kind)

  /** The router's rules, highest priority first. */
  const Rules: seq<Rule> := [
    Rule(ExitPhrases, ExitKind),
    Rule(["stop listening", "pause"], PauseKind),
    Rule(["start listening", "resume"], ResumeKind),
    Rule(["clear conversation", "forget conversation", "start over"], ClearKind),
    Rule(["open google", "open chrome"], OpenKind(Google)),
    Rule(["open youtube"], OpenKind(YouTube)),
    Rule(["search for", "google"], SearchKind)
  ]

  /** The index of the first rule at or after `k` that fires on `u`. */
  function FirstRuleFrom(u: string, k: nat): (r: Option<nat>)
    requires k <= |Rules|
    ensures r.Some? ==> k <= r.value < |Rules| && ContainsAny(u, Rules[r.value].phrases)
    ensures r.Some? ==> forall j :: k <= j < r.value ==> !ContainsAny(u, Rules[j].phrases)
    ensures r.None? ==> forall j :: k <= j < |Rules| ==> !ContainsAny(u, Rules[j].phrases)
    decreases |Rules| - k
  {
    if k == |Rules| then None
    else if ContainsAny(u, Rules[k].phrases) then Some(k)
    else FirstRuleFrom(u, k + 1)
  }

  /** What a fired rule yields; an empty search query yields nothing. */
  function Fire(kind: Kind, u: string): Option<Command> {
    match kind
    case ExitKind => Some(Exit)
    case PauseKind => Some(Pause)
    case ResumeKind => Some(Resume)
    case ClearKind => Some(Clear)
    case OpenKind(site) => Some(Web(site))
    case SearchKind =>
      var q := SearchQuery(u);
      if q != [] then Some(Search(q)) else None
  }

  /** Classification by the table: the first rule that fires decides. */
  function Classify(u: string): Option<Command> {
    match FirstRuleFrom(u, 0)
    case None => None
    case Some(k) => Fire(Rules[k].kind, u)
  }

  lemma ContainsAnyOfTwo(u: string, a: string, b: string)
    ensures ContainsAny(u, [a, b]) <==> Contains(u, a) || Contains(u, b)
  {
    var ps := [a, b];
    if Contains(u, a) { assert Contains(u, ps[0]); }
    if Contains(u, b) { assert Contains(u, ps[1]); }
  }

  lemma ContainsAnyOfThree(u: string, a: string, b: string, c: string)
    ensures ContainsAny(u, [a, b, c]) <==> Contains(u, a) || Contains(u, b) || Contains(u, c)
  {
    var ps := [a, b, c];
    if Contains(u, a) { assert Contains(u, ps[0]); }
    if Contains(u, b) { assert Contains(u, ps[1]); }
    if Contains(u, c) { assert Contains(u, ps[2]); }
  }

  lemma ContainsAnyOfOne(u: string, a: string)
    ensures ContainsAny(u, [a]) <==> Contains(u, a)
  {
    var ps := [a];
    if Contains(u, a) { assert Contains(u, ps[0]); }
  }

  /**
    The chain of conditionals in `Route` is exactly the ordered rule table:
    the first rule with a phrase in the utterance decides the result.
   */
  lemma RouteFollowsRules(u: string)
    ensures Route(u) == Classify(u)
  {
    var first := FirstRuleFrom(u, 0);
    if first.Some? {
      FiredRule(u, first.value);
    } else {
      NoRuleFires(u);
    }
  }

  /** The rule that fires first decides the router's answer. */
  lemma FiredRule(u: string, k: nat)
    requires FirstRuleFrom(u, 0) == Some(k)
    ensures k < |Rules| && Route(u) == Fire(Rules[k].kind, u)
  {
    if k < 3 {
      FiredEarlyRule(u, k);
    } else {
      FiredLateRule(u, k);
    }
  }

  /** One of the exit, pause and resume rules fires first. */
  lemma FiredEarlyRule(u: string, k: nat)
    requires FirstRuleFrom(u, 0) == Some(k) && k < 3
    ensures Route(u) == Fire(Rules[k].kind, u)
  {
    RulesBefore(u, k);
    ContainsAnyOfTwo(u, "stop listening", "pause");
    ContainsAnyOfTwo(u, "start listening", "resume");
  }

  /** One of the clear, web and search rules fires first. */
  lemma FiredLateRule(u: string, k: nat)
    requires FirstRuleFrom(u, 0) == Some(k) && 3 <= k
    ensures k < |Rules| && Route(u) == Fire(Rules[k].kind, u)
  {
    RulesBefore(u, 3);
    ContainsAnyOfTwo(u, "stop listening", "pause");
    ContainsAnyOfTwo(u, "start listening", "resume");
    if k < 5 {
      FiredClearOrOpenGoogle(u, k);
    } else {
      FiredLastRule(u, k);
    }
  }

  /** The clear rule or the "open google" rule fires first. */
  lemma FiredClearOrOpenGoogle(u: string, k: nat)
    requires FirstRuleFrom(u, 0) == Some(k) && 3 <= k < 5
    requires !ContainsAny(u, ExitPhrases) && !Contains(u, "stop listening") && !Contains(u, "pause")
    requires !AsksToResume(u)
    ensures Route(u) == Fire(Rules[k].kind, u)
  {
    RulesBefore(u, k);
    ContainsAnyOfThree(u, "clear conversation", "forget conversation", "start over");
    ContainsAnyOfTwo(u, "open google", "open chrome");
  }

  /** The "open youtube" rule or the search rule fires first. */
  lemma FiredLastRule(u: string, k: nat)
    requires FirstRuleFrom(u, 0) == Some(k) && 5 <= k
    requires !ContainsAny(u, ExitPhrases) && !Contains(u, "stop listening") && !Contains(u, "pause")
    requires !AsksToResume(u)
    ensures k < |Rules| && Route(u) == Fire(Rules[k].kind, u)
  {
    RulesBefore(u, 5);
    ContainsAnyOfThree(u, "clear conversation", "forget conversation", "start over");
    ContainsAnyOfTwo(u, "open google", "open chrome");
    ContainsAnyOfOne(u, "open youtube");
    if k == 6 {
      FiredSearchRule(u);
    }
  }

  /** The search rule fires first: the router answers what the search rule yields. */
  lemma FiredSearchRule(u: string)
    requires FirstRuleFrom(u, 0) == Some(6)
    requires !ContainsAny(u, ExitPhrases) && !Contains(u, "stop listening") && !Contains(u, "pause")
    requires !AsksToResume(u) && !Contains(u, "clear conversation")
    requires !Contains(u, "forget conversation") && !Contains(u, "start over")
    requires !Contains(u, "open google") && !Contains(u, "open chrome") && !Contains(u, "open youtube")
    ensures Route(u) == Fire(SearchKind, u)
  {
    ContainsAnyOfTwo(u, "search for", "google");
  }

  /** When no rule fires, the router hands the utterance on. */
  lemma NoRuleFires(u: string)
    requires FirstRuleFrom(u, 0).None?
    ensures Route(u) == None
  {
    RulePhrases(u);
    RulesBefore(u, 7);
  }

  /** Each rule fires exactly when one of its phrases occurs. */
  lemma RulePhrases(u: string)
    ensures ContainsAny(u, ["stop listening", "pause"]) <==> Contains(u, "stop listening") || Contains(u, "pause")
    ensures ContainsAny(u, ["start listening", "resume"]) <==> AsksToResume(u)
    ensures ContainsAny(u, ["clear conversation", "forget conversation", "start over"])
      <==> Contains(u, "clear conversation") || Contains(u, "forget conversation") || Contains(u, "start over")
    ensures ContainsAny(u, ["open google", "open chrome"]) <==> Contains(u, "open google") || Contains(u, "open chrome")
    ensures ContainsAny(u, ["open youtube"]) <==> Contains(u, "open youtube")
    ensures ContainsAny(u, ["search for", "google"]) <==> Contains(u, "search for") || Contains(u, "google")
  {
    ContainsAnyOfTwo(u, "stop listening", "pause");
    ContainsAnyOfTwo(u, "start listening", "resume");
    ContainsAnyOfThree(u, "clear conversation", "forget conversation", "start over");
    ContainsAnyOfTwo(u, "open google", "open chrome");
    ContainsAnyOfOne(u, "open youtube");
    ContainsAnyOfTwo(u, "search for", "google");
  }

  /** No rule before `k` fires, spelled out rule by rule. */
  lemma RulesBefore(u: string, k: nat)
    requires k <= 7
    requires forall j :: 0 <= j < k ==> !ContainsAny(u, Rules[j].phrases)
    ensures k > 0 ==> !ContainsAny(u, ExitPhrases)
    ensures k > 1 ==> !ContainsAny(u, ["stop listening", "pause"])
    ensures k > 2 ==> !ContainsAny(u, ["start listening", "resume"])
    ensures k > 3 ==> !ContainsAny(u, ["clear conversation", "forget conversation", "start over"])
    ensures k > 4 ==> !ContainsAny(u, ["open google", "open chrome"])
    ensures k > 5 ==> !ContainsAny(u, ["open youtube"])
    ensures k > 6 ==> !ContainsAny(u, ["search for", "google"])
  {
    if k > 0 { assert !ContainsAny(u, Rules[0].phrases); }
    if k > 1 { assert !ContainsAny(u, Rules[1].phrases); }
    if k > 2 { assert !ContainsAny(u, Rules[2].phrases); }
    if k > 3 { assert !ContainsAny(u, Rules[3].phrases); }
    if k > 4 { assert !ContainsAny(u, Rules[4].phrases); }
    if k > 5 { assert !ContainsAny(u, Rules[5].phrases); }
    if k > 6 { assert !ContainsAny(u, Rules[6].phrases); }
  }

  // ---------------------------------------------------------------------------
  // Precedence

  /** An exit phrase anywhere in the utterance wins, whatever else it contains. */
  lemma ExitWins(a: string, k: nat, b: string)
    requires k < |ExitPhrases|
    ensures Route(a + ExitPhrases[k] + b) == Some(Exit)
  {
    ContainsAnyInfix(a, ExitPhrases, k, b);
  }

  /**
    "open google" or "open chrome" anywhere in the utterance is never a
    search and never falls through to conversation; when no earlier rule's
    phrase occurs, it opens https://google.com.
   */
  lemma OpenGoogleIsNeverSearch(a: string, p: string, b: string)
    requires p == "open google" || p == "open chrome"
    ensures var r := Route(a + p + b);
      r.Some? && !r.value.Search? && r.value != Web(YouTube)
    ensures var u := a + p + b;
      !ContainsAny(u, ExitPhrases) && !Contains(u, "stop listening") && !Contains(u, "pause")
      && !AsksToResume(u) && !Contains(u, "clear conversation")
      && !Contains(u, "forget conversation") && !Contains(u, "start over")
      ==> Route(u) == Some(Web(Google)) && Url(Route(u).value) == Some("https://google.com")
  {
    ContainsInfix(a, p, b);
  }

  /** The search page never has a space in it, and the query is stripped and non-empty. */
  lemma SearchUrlHasNoSpace(u: string)
    requires Route(u).Some? && Route(u).value.Search?
    ensures var q := Route(u).value.query;
      q != [] && IsTrimmed(q) && ' ' !in SearchUrl(q) && |SearchUrl(q)| == |SearchPrefix| + |q|
  {
    var q := Route(u).value.query;
    ReplaceCharRemoves(q, ' ', '+');
    ReplaceChar(q, ' ', '+');
    assert ' ' !in SearchPrefix;
  }

  /**
    A search whose query strips to nothing is no command at all: the
    router answers `None` and the utterance goes on to conversation.
   */
  lemma EmptySearchFallsThrough(u: string)
    requires FirstRuleFrom(u, 0) == Some(6)
    requires SearchQuery(u) == []
    ensures Route(u) == None
  {
    RouteFollowsRules(u);
  }
}
