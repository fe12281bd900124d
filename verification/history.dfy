/**
  The conversation memory kept by `get_conversational_response`: the user
  turn is appended, the oldest turn is dropped once the list is longer
  than thirty entries, and the assistant turn is appended only when the
  chat backend answered.  The chat backend itself is an abstract outcome.
 */
module History {

  /** The trim threshold: one turn is evicted when the list grows past it. */
  const MaxHistory: nat := 30

  datatype Role = User | Assistant

  datatype Turn = Turn(role: Role, content: string)

  /** What the chat-completion call produced: generated text, or an exception. */
  datatype ChatOutcome = Reply(text: string) | Failure

  /** The sentence spoken when the chat call raised. */
  const ChatFallback: string :=
    "I'm having a little trouble right now, but I'm still here to chat! Try asking me something else."

  /** The history after one call, and the sentence handed back to be spoken. */
  datatype Exchange = Exchange(history: seq<Turn>, reply: string)

  /**
    Append `t`, then pop the oldest entry if the list is now longer than
    `MaxHistory`.  The kept turns are the newest ones, in their old order.
   */
  function Remember(h: seq<Turn>, t: Turn): (r: seq<Turn>)
    ensures |r| == if |h| < MaxHistory then |h| + 1 else |h|
    ensures r[|r| - 1] == t
    ensures r[..|r| - 1] == h[|h| + 1 - |r|..]
  {
    var appended := h + [t];
    if |appended| > MaxHistory then appended[1..] else appended
  }

  /**
    One call of `get_conversational_response(input)` against history `h`,
    with the backend's `outcome`.
   */
  function Converse(h: seq<Turn>, input: string, outcome: ChatOutcome): (r: Exchange)
    // the exact length recurrence: no cap is kept
    ensures |r.history| == (if |h| < MaxHistory then |h| + 1 else |h|) + (if outcome.Reply? then 1 else 0)
    // the user turn is kept even when the backend failed
    ensures var u := |r.history| - (if outcome.Reply? then 2 else 1);
      r.history[u] == Turn(User, input) && r.history[..u] == h[|h| - u..]
    ensures outcome.Reply? ==> r.reply == outcome.text && r.history[|r.history| - 1] == Turn(Assistant, outcome.text)
    ensures outcome.Failure? ==> r.reply == ChatFallback
  {
    var kept := Remember(h, Turn(User, input));
    match outcome
    case Reply(text) => Exchange(kept + [Turn(Assistant, text)], text)
    case Failure => Exchange(kept, ChatFallback)
  }

  /** One utterance sent to the chat backend together with the outcome it got. */
  datatype Message = Message(input: string, outcome: ChatOutcome)

  /** The history after a run of consecutive chat calls. */
  function Replay(h: seq<Turn>, ms: seq<Message>): seq<Turn>
    decreases |ms|
  {
    if |ms| == 0 then h
    else Replay(Converse(h, ms[0].input, ms[0].outcome).history, ms[1..])
  }

  predicate AllAnswered(ms: seq<Message>) {
    forall k :: 0 <= k < |ms| ==> ms[k].outcome.Reply?
  }

  predicate AllFailed(ms: seq<Message>) {
    forall k :: 0 <= k < |ms| ==> ms[k].outcome.Failure?
  }

  /**
    The thirty-entry bound is not kept: once the history has thirty or
    more turns, every answered call grows it by exactly one, without limit.
   */
  lemma {:induction false} ReplayOutgrowsCap(h: seq<Turn>, ms: seq<Message>)
    requires |h| >= MaxHistory && AllAnswered(ms)
    ensures |Replay(h, ms)| == |h| + |ms|
    decreases |ms|
  {
    if |ms| > 0 {
      var h1 := Converse(h, ms[0].input, ms[0].outcome).history;
      assert AllAnswered(ms[1..]) by {
        forall k | 0 <= k < |ms[1..]| ensures ms[1..][k].outcome.Reply? {
          assert ms[1..][k] == ms[k + 1];
        }
      }
      ReplayOutgrowsCap(h1, ms[1..]);
    }
  }

  /** Answered calls never shrink the history: each adds at least one turn. */
  lemma {:induction false} ReplayAnsweredGrows(h: seq<Turn>, ms: seq<Message>)
    requires AllAnswered(ms)
    ensures |Replay(h, ms)| >= |h| + |ms|
    decreases |ms|
  {
    if |ms| > 0 {
      var h1 := Converse(h, ms[0].input, ms[0].outcome).history;
      assert AllAnswered(ms[1..]) by {
        forall k | 0 <= k < |ms[1..]| ensures ms[1..][k].outcome.Reply? {
          assert ms[1..][k] == ms[k + 1];
        }
      }
      ReplayAnsweredGrows(h1, ms[1..]);
    }
  }

  /**
    Failed calls alone do respect the threshold: they add a user turn each
    until the history reaches thirty, and then only rotate it.
   */
  lemma {:induction false} ReplayFailuresBounded(h: seq<Turn>, ms: seq<Message>)
    requires AllFailed(ms)
    ensures |Replay(h, ms)| == if |h| >= MaxHistory then |h|
      else if |h| + |ms| <= MaxHistory then |h| + |ms| else MaxHistory
    decreases |ms|
  {
    if |ms| > 0 {
      var h1 := Converse(h, ms[0].input, ms[0].outcome).history;
      assert AllFailed(ms[1..]) by {
        forall k | 0 <= k < |ms[1..]| ensures ms[1..][k].outcome.Failure? {
          assert ms[1..][k] == ms[k + 1];
        }
      }
      ReplayFailuresBounded(h1, ms[1..]);
    }
  }
}
