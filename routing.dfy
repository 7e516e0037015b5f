/**
 * `GroqClient.route_agent_type`: one classification request built from the
 * last four history turns, and the parser that turns the classifier's reply
 * into a non-empty list of known agent names.
 */
module Routing {
  import opened Wrappers
  import opened AsciiText
  import opened Messages
  import opened Slices

  /** The names a reply token must equal to be kept, in the source's order. */
  const ValidRoutes: seq<string> := ["coding", "analytics", "websearch", "document", "general"]

  /** What the router answers when nothing usable came back. */
  const Fallback: seq<string> := ["general"]

  /** Output limit of the classification request. */
  const RoutingMaxTokens: nat := 20

  /** How many of the latest history turns the classifier sees. */
  const HistoryWindow: nat := 4

  // Parsing the classifier's reply.

  /** `[agent.strip() for agent in content.strip().lower().split(",")]` */
  function Tokens(reply: string): (tokens: seq<string>)
    ensures var parts := SplitOn(Lower(Strip(reply)), ',');
            && |tokens| == |parts| >= 1
            && forall i :: 0 <= i < |parts| ==> tokens[i] == Strip(parts[i])
  {
    var parts := SplitOn(Lower(Strip(reply)), ',');
    seq(|parts|, i requires 0 <= i < |parts| => Strip(parts[i]))
  }

  /** `[agent for agent in tokens if agent in valid_routes]` */
  function KeepValid(tokens: seq<string>): (kept: seq<string>)
    ensures forall a :: a in kept ==> a in ValidRoutes
    ensures |kept| <= |tokens|
  {
    if tokens == [] then []
    else (if tokens[0] in ValidRoutes then [tokens[0]] else []) + KeepValid(tokens[1..])
  }

  /** The filter works piecewise, so it keeps the surviving tokens in their original order. */
  lemma {:induction false} KeepValidAppend(a: seq<string>, b: seq<string>)
    ensures KeepValid(a + b) == KeepValid(a) + KeepValid(b)
  {
    if a == [] {
      assert a + b == b;
    } else {
      assert (a + b)[1..] == a[1..] + b;
      KeepValidAppend(a[1..], b);
    }
  }

  /** Every known name survives as often as it occurs; nothing else survives. */
  lemma {:induction false} KeepValidCounts(tokens: seq<string>)
    ensures forall a :: a in ValidRoutes ==> multiset(KeepValid(tokens))[a] == multiset(tokens)[a]
    ensures forall a :: a !in ValidRoutes ==> multiset(KeepValid(tokens))[a] == 0
  {
    if tokens != [] {
      KeepValidCounts(tokens[1..]);
      assert tokens == [tokens[0]] + tokens[1..];
    }
  }

  /** The filter comes back empty exactly when no token is a known name. */
  lemma {:induction false} KeepValidEmpty(tokens: seq<string>)
    ensures KeepValid(tokens) == [] <==> forall i :: 0 <= i < |tokens| ==> tokens[i] !in ValidRoutes
  {
    if tokens != [] {
      KeepValidEmpty(tokens[1..]);
      assert forall i :: 1 <= i < |tokens| ==> tokens[i] == tokens[1..][i - 1];
    }
  }

  /** The agents a classifier reply routes to. */
  function ParseRoutes(reply: string): (routes: seq<string>)
    ensures routes != []
    ensures forall a :: a in routes ==> a in ValidRoutes
  {
    var kept := KeepValid(Tokens(reply));
    if kept == [] then Fallback else kept
  }

  /**
   * The routes are the reply's known tokens, in order and with repetitions,
   * when there is one; otherwise the fallback.
   */
  lemma {:induction false} ParseRoutesSpec(reply: string)
    ensures var tokens := Tokens(reply);
            && ((forall i :: 0 <= i < |tokens| ==> tokens[i] !in ValidRoutes) ==> ParseRoutes(reply) == Fallback)
            && ((exists i :: 0 <= i < |tokens| && tokens[i] in ValidRoutes) ==>
                  && ParseRoutes(reply) == KeepValid(tokens)
                  && forall a :: a in ValidRoutes ==> multiset(ParseRoutes(reply))[a] == multiset(tokens)[a])
  {
    KeepValidEmpty(Tokens(reply));
    KeepValidCounts(Tokens(reply));
  }

  lemma {:induction false} ParseSingleTokens(a: string, b: string)
    requires a == "coding" && b == "poetry"
    ensures KeepValid([a, b, a]) == [a, a]
  {
    assert ValidRoutes[0] == a;
    assert b !in ValidRoutes by {
      assert b[0] == 'p';
      forall i | 0 <= i < |ValidRoutes| ensures ValidRoutes[i] != b {
        assert ValidRoutes[i][0] != 'p';
      }
    }
    assert [a, b, a][1..] == [b, a] && [b, a][1..] == [a] && [a][1..] == [];
    assert KeepValid([a]) == [a] + KeepValid([]);
  }

  // The classifier's context.

  /** `history[-4:]` */
  function RecentHistory(history: seq<Dict>): (recent: seq<Dict>)
    ensures |recent| == if |history| < HistoryWindow then |history| else HistoryWindow
    ensures recent == history[|history| - |recent|..]
  {
    if |history| <= HistoryWindow then history else history[|history| - HistoryWindow..]
  }

  /** `f"- {role.upper()}: {content.strip()}\n"`, the role defaulting to `user` and the content to empty. */
  function ContextLine(turn: Dict): string
  {
    "- " + Upper(Get(turn, "role", "user")) + ": " + Strip(Get(turn, "content", "")) + "\n"
  }

  /** The lines of `turns`, concatenated in order. */
  function ContextOf(turns: seq<Dict>): string
  {
    if turns == [] then "" else ContextOf(turns[..|turns| - 1]) + ContextLine(turns[|turns| - 1])
  }

  /** The context the loop accumulates: one line per recent turn. */
  function HistoryContext(history: seq<Dict>): string
  {
    ContextOf(RecentHistory(history))
  }

  /** The line of each turn, in order. */
  function ContextLines(turns: seq<Dict>): (lines: seq<string>)
    ensures |lines| == |turns|
    ensures forall i :: 0 <= i < |turns| ==> lines[i] == ContextLine(turns[i])
  {
    Map(ContextLine, turns)
  }

  lemma {:induction false} ConcatSnoc(ss: seq<string>, s: string)
    ensures Concat(ss + [s]) == Concat(ss) + s
  {
    ConcatAppend(ss, [s]);
    assert [s][1..] == [];
    assert Concat([s]) == s + Concat([]);
  }

  /** The context is the lines of the turns, one per turn, joined in order. */
  lemma {:induction false} ContextOfLines(turns: seq<Dict>)
    ensures ContextOf(turns) == Concat(ContextLines(turns))
  {
    if turns != [] {
      var front := turns[..|turns| - 1];
      ContextOfLines(front);
      MapSnoc(ContextLine, turns);
      ConcatSnoc(ContextLines(front), ContextLine(turns[|turns| - 1]));
    }
  }

  /** Turns older than the last four never reach the classifier. */
  lemma {:induction false} OlderTurnsIgnored(older: seq<Dict>, history: seq<Dict>)
    requires |history| >= HistoryWindow
    ensures HistoryContext(older + history) == HistoryContext(history)
  {
    assert RecentHistory(older + history) == RecentHistory(history);
  }

  /** The classifier's instructions, which end in the heading of the context. */
  const ClassifierInstructions: string :=
    "You are an intelligent classifier for a multi-agent AI system.\n"
    + "Given the user's prompt and recent conversation, your task is to identify **all applicable agents** required to answer the prompt.\n\n"
    + "Available agents: 'coding', 'analytics', 'websearch', 'document'.\n"
    + "If none apply, respond with 'general'.\n\n"
    + "Return a **comma-separated list** of agents that should be invoked for this task.\n"
    + "Only return agent types — no explanation or extra text.\n\n"
    + "Conversation History:\n"

  /** The system prompt of the classification request: the instructions followed by the stripped context. */
  function ClassifierPrompt(context: string): (p: string)
    ensures |p| >= |context| && p[|p| - |context|..] == context
  {
    var p := ClassifierInstructions + context;
    assert p[|ClassifierInstructions|..] == context;
    p
  }

  /** The classification request: the instructions with the context, then the prompt as the user turn. */
  function RoutingRequest(prompt: string, history: seq<Dict>): Request
  {
    Request(Model, [RoleContent("system", ClassifierPrompt(Strip(HistoryContext(history)))), RoleContent("user", prompt)],
            false, RoutingMaxTokens)
  }

  /** What the router answers, given what the service answers. */
  function Routes(answer: Completion): (routes: seq<string>)
    ensures routes != [] && forall a :: a in routes ==> a in ValidRoutes
    ensures answer.Failed? ==> routes == Fallback
    ensures answer.Completed? ==> routes == ParseRoutes(answer.content)
  {
    match answer
    case Completed(content) => ParseRoutes(content)
    case Failed(_) => Fallback
  }

  /** The context loop of `route_agent_type`: one line per turn, appended in order. */
  method BuildContext(recent: seq<Dict>) returns (context: string)
    ensures context == ContextOf(recent)
  {
    context := "";
    for i := 0 to |recent|
      invariant context == ContextOf(recent[..i])
    {
      var msg := recent[i];
      var role := Get(msg, "role", "user");
      var content := Get(msg, "content", "");
      var line := "- " + Upper(role) + ": " + Strip(content) + "\n";
      TakeOneMore(recent, i);
      assert line == ContextLine(recent[..i + 1][i]);
      assert ContextOf(recent[..i + 1]) == ContextOf(recent[..i]) + line;
      context := context + line;
    }
    assert recent[..|recent|] == recent;
  }

  /**
   * `route_agent_type`: `answer` stands for the service's reply to `request`
   * (an absent content, whose `.strip()` raises, is a `Failed` answer).
   */
  method RouteAgentType(prompt: string, history: seq<Dict>, answer: Completion) returns (routes: seq<string>, request: Request)
    ensures request == RoutingRequest(prompt, history)
    ensures routes == Routes(answer)
  {
    var context := BuildContext(RecentHistory(history));
    var systemPrompt := ClassifierPrompt(Strip(context));
    var messages := [RoleContent("system", systemPrompt), RoleContent("user", prompt)];
    request := Request(Model, messages, false, RoutingMaxTokens);

    match answer {
      case Failed(_) =>
        routes := Fallback;
      case Completed(content) =>
        var predicted := Tokens(content);
        var routed := KeepValid(predicted);
        if routed == [] {
          routes := Fallback;
        } else {
          routes := routed;
        }
    }
  }
}
