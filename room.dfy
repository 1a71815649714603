/** The chat room: a mutable history seeded from initial prompts and a turn
    loop that runs the detector before every agent call. */
module Rooms {
  import opened Messages
  import opened Checks
  import opened Convergence
  import opened Agents

  /** How many trailing messages an agent sees. The room's `maxMemory`
      setting is stored but does not change this. */
  const ContextLength: nat := 10

  /** The contents of the last ContextLength messages (all of them when fewer). */
  function Context(h: seq<Message>): (r: seq<string>)
    ensures |r| == if |h| < ContextLength then |h| else ContextLength
    ensures forall i :: 0 <= i < |r| ==> r[i] == h[|h| - |r| + i].content
  {
    var start := if |h| > ContextLength then |h| - ContextLength else 0;
    Contents(h[start..])
  }

  /** The models a room is built from: either ready agents, or model names
      paired with system prompts (pairing stops at the shorter list). */
  datatype ModelList =
    | Names(names: seq<string>, systemPrompts: seq<string>)
    | Ready(agents: seq<Agent>)

  /** Pair names with system prompts position by position, dropping the
      surplus of the longer list. */
  function Zip(names: seq<string>, systemPrompts: seq<string>): (r: seq<Agent>)
    ensures |r| == if |names| <= |systemPrompts| then |names| else |systemPrompts|
    ensures forall i :: 0 <= i < |r| ==> r[i] == Agent(names[i], systemPrompts[i])
  {
    if names == [] || systemPrompts == [] then []
    else [Agent(names[0], systemPrompts[0])] + Zip(names[1..], systemPrompts[1..])
  }

  /** The roster a room keeps for a given model list. */
  function RosterOf(models: ModelList): seq<Agent>
  {
    match models
    case Names(names, prompts) => Zip(names, prompts)
    case Ready(agents) => agents
  }

  /** The capabilities a run depends on but this model does not define:
      the similarity scorers, the chat capability (model name, prompt and turn
      number to reply; the turn number stands for the fresh sampling seed each
      call draws, so the same prompt may get different replies on different
      turns), and the random agent choice (turn number to roster index). */
  datatype Env = Env(scorers: Scorers, chat: (string, seq<Entry>, nat) -> Message, pick: nat -> nat)

  /** Every agent choice the run can make is a valid roster index. */
  ghost predicate PicksInRange(env: Env, roster: seq<Agent>)
  {
    forall t :: env.pick(t) < |roster|
  }

  /** The reply of the agent chosen on turn `t`, given the history so far. */
  function Reply(roster: seq<Agent>, env: Env, h: seq<Message>, t: nat): Message
    requires env.pick(t) < |roster|
  {
    var agent := roster[env.pick(t)];
    env.chat(agent.name, Prompt(agent.systemPrompt, Context(h)), t)
  }

  /** The room's stop rule: the detector's verdict on the whole history. */
  function StopRule(c: Checker, sc: Scorers): seq<Message> -> bool
  {
    (h: seq<Message>) => Converged(c, sc, h)
  }

  /** The room's next message on turn `t`: the chosen agent's reply. */
  function NextRule(roster: seq<Agent>, env: Env): (seq<Message>, nat) -> Message
    requires PicksInRange(env, roster)
  {
    (h: seq<Message>, t: nat) => Reply(roster, env, h, t)
  }

  /** The messages a turn loop produces from history `h`, starting at turn
      `t` with `fuel` turns left: stop when out of turns or when `stop` holds
      of the history, otherwise append `next(h, t)` and continue. */
  function Run(stop: seq<Message> -> bool, next: (seq<Message>, nat) -> Message,
               h: seq<Message>, t: nat, fuel: nat): seq<Message>
    decreases fuel
  {
    if fuel == 0 || stop(h) then []
    else [next(h, t)] + Run(stop, next, h + [next(h, t)], t + 1, fuel - 1)
  }

  /** A run never produces more messages than it has turns. */
  lemma {:induction false} RunBounded(stop: seq<Message> -> bool, next: (seq<Message>, nat) -> Message,
                                      h: seq<Message>, t: nat, fuel: nat)
    ensures |Run(stop, next, h, t, fuel)| <= fuel
    decreases fuel
  {
    if fuel > 0 && !stop(h) {
      RunBounded(stop, next, h + [next(h, t)], t + 1, fuel - 1);
    }
  }

  /** A run that stops early stops because `stop` holds of its final history. */
  lemma {:induction false} RunStopsEarlyOnlyWhenStopped(stop: seq<Message> -> bool, next: (seq<Message>, nat) -> Message,
                                                 h: seq<Message>, t: nat, fuel: nat)
    ensures var r := Run(stop, next, h, t, fuel); |r| < fuel ==> stop(h + r)
    decreases fuel
  {
    if fuel > 0 && !stop(h) {
      var m := next(h, t);
      var rest := Run(stop, next, h + [m], t + 1, fuel - 1);
      RunStopsEarlyOnlyWhenStopped(stop, next, h + [m], t + 1, fuel - 1);
      assert h + ([m] + rest) == (h + [m]) + rest;
    } else {
      assert h + [] == h;
    }
  }

  /** Turn k of a run: `stop` did not hold of the history before it, and the
      message is `next` of that history on turn t + k. */
  lemma {:induction false} RunTurn(stop: seq<Message> -> bool, next: (seq<Message>, nat) -> Message,
                                   h: seq<Message>, t: nat, fuel: nat, k: nat)
    requires k < |Run(stop, next, h, t, fuel)|
    ensures var r := Run(stop, next, h, t, fuel);
      !stop(h + r[..k]) && r[k] == next(h + r[..k], t + k)
    decreases fuel
  {
    var r := Run(stop, next, h, t, fuel);
    var m := next(h, t);
    var rest := Run(stop, next, h + [m], t + 1, fuel - 1);
    assert r == [m] + rest;
    if k == 0 {
      assert h + r[..0] == h;
    } else {
      RunTurn(stop, next, h + [m], t + 1, fuel - 1, k - 1);
      assert r[..k] == [m] + rest[..k - 1];
      assert h + r[..k] == (h + [m]) + rest[..k - 1];
    }
  }

  /** The history after a run extends the history before it by at most
      `fuel` messages, and falls short of `fuel` only when `stop` holds of it. */
  lemma RunExtends(stop: seq<Message> -> bool, next: (seq<Message>, nat) -> Message,
                   h: seq<Message>, t: nat, fuel: nat)
    ensures var g := h + Run(stop, next, h, t, fuel);
      && |h| <= |g| <= |h| + fuel
      && g[..|h|] == h
      && (|g| < |h| + fuel ==> stop(g))
  {
    RunBounded(stop, next, h, t, fuel);
    RunStopsEarlyOnlyWhenStopped(stop, next, h, t, fuel);
  }

  /** One turn of a loop that does not stop, as the room's loop sees it: if
      history `before` followed by the rest of its run is `total`, and the turn
      appends `next(before, t0)`, then the new history followed by the rest of
      its run (one turn later, one turn fewer) is still `total`. */
  lemma RunStep(stop: seq<Message> -> bool, next: (seq<Message>, nat) -> Message,
                before: seq<Message>, after: seq<Message>, t0: nat, t: nat, fuel0: nat, fuel: nat,
                total: seq<Message>)
    requires t == t0 + 1 && fuel0 == fuel + 1
    requires !stop(before) && after == before + [next(before, t0)]
    requires before + Run(stop, next, before, t0, fuel0) == total
    ensures after + Run(stop, next, after, t, fuel) == total
  {
  }

  /** A loop that stops, or has no turns left, adds nothing to the history. */
  lemma RunDone(stop: seq<Message> -> bool, next: (seq<Message>, nat) -> Message,
                h: seq<Message>, t: nat, fuel: nat)
    requires fuel == 0 || stop(h)
    ensures h + Run(stop, next, h, t, fuel) == h
  {
  }

  /** A room: its agents, its settings and the shared, growing chat history. */
  class Room {
    var models: seq<Agent>
    var maxIterations: int
    var chatHistory: seq<Message>
    var maxMemory: int
    var checker: Checker

    /** Seed the history with one "given" message per initial prompt, in order. */
    constructor (models: ModelList, initialPrompts: seq<string>, maxMemory: int, maxIterations: int, checker: Checker)
      requires if models.Names? then |models.names| > 0 else |models.agents| > 0
      ensures this.models == RosterOf(models)
      ensures this.maxIterations == maxIterations && this.maxMemory == maxMemory && this.checker == checker
      ensures |chatHistory| == |initialPrompts|
      ensures forall i :: 0 <= i < |initialPrompts| ==> chatHistory[i] == Given(initialPrompts[i])
    {
      this.models := RosterOf(models);
      this.maxIterations := maxIterations;
      this.chatHistory := [];
      this.maxMemory := maxMemory;
      this.checker := checker;
      new;
      var i := 0;
      while i < |initialPrompts|
        invariant 0 <= i <= |initialPrompts|
        invariant this.models == RosterOf(models)
        invariant this.maxIterations == maxIterations && this.maxMemory == maxMemory && this.checker == checker
        invariant |chatHistory| == i
        invariant forall j :: 0 <= j < i ==> chatHistory[j] == Given(initialPrompts[j])
      {
        chatHistory := chatHistory + [Given(initialPrompts[i])];
        i := i + 1;
      }
    }

    /** The number of turns the room may run: `maxIterations`, or none when it is not positive. */
    function Turns(): nat
      reads this`maxIterations
    {
      if maxIterations > 0 then maxIterations else 0
    }

    /** One pass of the turn loop on turn `t`: run the detector on the whole
        history and, unless it fires, ask the agent chosen for this turn with
        the contents of the last ContextLength messages and append its reply. */
    method Turn(env: Env, t: nat) returns (reply: Option<Message>)
      requires Converged(checker, env.scorers, chatHistory) || env.pick(t) < |models|
      modifies this`chatHistory
      ensures reply.None? <==> Converged(checker, env.scorers, old(chatHistory))
      ensures reply.Some? ==> reply.value == Reply(models, env, old(chatHistory), t)
      ensures chatHistory == if reply.None? then old(chatHistory) else old(chatHistory) + [reply.value]
    {
      var converged := Detect(checker, env.scorers, chatHistory);
      if converged {
        return None;
      }
      var agent := models[env.pick(t)];
      var lastMessages := Context(chatHistory);
      var message := Call(agent, lastMessages, (name: string, prompt: seq<Entry>) => env.chat(name, prompt, t));
      chatHistory := chatHistory + [message];
      return Some(message);
    }

    /** Everything the room yields: first the history as it stands, then each
        new message as it is appended. Before every agent call the detector
        runs on the whole history, and the loop ends when it fires. */
    method GenerateMessage(env: Env) returns (yielded: seq<Message>)
      requires PicksInRange(env, models)
      modifies this`chatHistory
      ensures chatHistory == old(chatHistory)
                           + Run(StopRule(checker, env.scorers), NextRule(models, env), old(chatHistory), 0, Turns())
      ensures yielded == chatHistory
      ensures |old(chatHistory)| <= |chatHistory| <= |old(chatHistory)| + Turns()
      ensures chatHistory[..|old(chatHistory)|] == old(chatHistory)
      ensures |chatHistory| < |old(chatHistory)| + Turns() ==> Converged(checker, env.scorers, chatHistory)
    {
      ghost var h0 := chatHistory;
      ghost var stop, next := StopRule(checker, env.scorers), NextRule(models, env);
      var n := Turns();
      ghost var total := h0 + Run(stop, next, h0, 0, n);
      yielded := chatHistory;
      var i := 0;
      ghost var left := n;
      while i < n
        invariant 0 <= i <= n && left == n - i
        invariant yielded == chatHistory
        invariant chatHistory + Run(stop, next, chatHistory, i, left) == total
      {
        ghost var before, i0, left0 := chatHistory, i, left;
        var reply := Turn(env, i);
        if reply.None? {
          RunDone(stop, next, before, i, left);
          break;
        }
        yielded := yielded + [reply.value];
        i, left := i + 1, left - 1;
        RunStep(stop, next, before, chatHistory, i0, i, left0, left, total);
      }
      if i == n {
        RunDone(stop, next, chatHistory, i, 0);
      }
      RunExtends(stop, next, h0, 0, n);
    }
  }

  lemma ShortForStrideTwoOrMore(h: seq<Message>, s: nat)
    requires 2 <= s && |h| <= 3
    ensures |Strided(h, s)| <= 2
  {
  }

  /** A detector that asks for three equal contents in a row. */
  predicate ThreeInARow(c: Checker)
  {
    c.minLen == 3 && c.metric == Equality && c.maxStep >= 1
  }

  /** Three messages whose first two contents differ: at stride 1 the window
      compares the first with the second. */
  lemma StrideOneSeesTheSeed(c: Checker, sc: Scorers, h: seq<Message>)
    requires ThreeInARow(c) && |h| == 3 && h[0].content != h[1].content
    ensures !Passes(c, sc, h, 1)
  {
    var w := Window(h, 1, 3);
    StrideOneWindow(h, 3);
    assert w[1] == h[1] && w[2] == h[0];
    EqualityCheckMeaning(w);
  }

  /** Three messages whose first two contents differ: stride 1 sees the
      difference and every longer stride is too short, so the detector does not fire. */
  lemma NotConvergedBeforeThirdRepeat(c: Checker, sc: Scorers, h: seq<Message>)
    requires ThreeInARow(c) && |h| == 3 && h[0].content != h[1].content
    ensures !Converged(c, sc, h)
  {
    StrideOneSeesTheSeed(c, sc, h);
    forall s | 2 <= s <= c.maxStep ensures !Passes(c, sc, h, s) {
      ShortForStrideTwoOrMore(h, s);
    }
    ConvergedIff(c, sc, h);
  }

  /** Three trailing messages with one content: stride 1 passes. */
  lemma StrideOneSeesTheRepeat(c: Checker, sc: Scorers, h: seq<Message>)
    requires ThreeInARow(c) && |h| >= 3
    requires h[|h| - 1].content == h[|h| - 2].content == h[|h| - 3].content
    ensures Passes(c, sc, h, 1)
  {
    var w := Window(h, 1, 3);
    StrideOneWindow(h, 3);
    assert w[0] == h[|h| - 1] && w[1] == h[|h| - 2] && w[2] == h[|h| - 3];
    EqualityCheckMeaning(w);
  }

  /** Three trailing messages with one content: the detector fires. */
  lemma ConvergedOnThirdRepeat(c: Checker, sc: Scorers, h: seq<Message>)
    requires ThreeInARow(c) && |h| >= 3
    requires h[|h| - 1].content == h[|h| - 2].content == h[|h| - 3].content
    ensures Converged(c, sc, h)
  {
    StrideOneSeesTheRepeat(c, sc, h);
    ConvergedIff(c, sc, h);
  }

  /** A loop whose stop rule is false on the first three histories it meets
      and true on the fourth produces exactly three messages. */
  lemma RunStopsAfterThree(stop: seq<Message> -> bool, next: (seq<Message>, nat) -> Message,
                           h0: seq<Message>, fuel: nat)
    requires fuel >= 3
    requires var h1 := h0 + [next(h0, 0)]; var h2 := h1 + [next(h1, 1)]; var h3 := h2 + [next(h2, 2)];
      !stop(h0) && !stop(h1) && !stop(h2) && stop(h3)
    ensures |Run(stop, next, h0, 0, fuel)| == 3
  {
    var h1 := h0 + [next(h0, 0)];
    var h2 := h1 + [next(h1, 1)];
    var h3 := h2 + [next(h2, 2)];
    assert Run(stop, next, h3, 3, fuel - 3) == [];
    assert |Run(stop, next, h2, 2, fuel - 2)| == 1;
    assert |Run(stop, next, h1, 1, fuel - 1)| == 2;
  }

  /** A room seeded with one message, whose detector asks for three equal
      contents in a row, and whose agents always answer "LOL" (the first
      system prompt of the project's example command line) to a seed that says
      something else: the detector fires once the third "LOL" is appended, so
      with three or more turns the run stops after exactly three messages. */
  lemma ThreeLolsStopTheRoom(c: Checker, roster: seq<Agent>, env: Env, h0: seq<Message>, fuel: nat)
    requires ThreeInARow(c) && PicksInRange(env, roster) && fuel >= 3
    requires forall name, p, t :: env.chat(name, p, t).content == "LOL"
    requires |h0| == 1 && h0[0].content != "LOL"
    ensures |Run(StopRule(c, env.scorers), NextRule(roster, env), h0, 0, fuel)| == 3
  {
    var stop, next := StopRule(c, env.scorers), NextRule(roster, env);
    var h1 := h0 + [next(h0, 0)];
    var h2 := h1 + [next(h1, 1)];
    var h3 := h2 + [next(h2, 2)];
    assert next(h0, 0).content == "LOL" && next(h1, 1).content == "LOL" && next(h2, 2).content == "LOL";
    ShortHistoryNeverConverges(c, env.scorers, h0);
    ShortHistoryNeverConverges(c, env.scorers, h1);
    NotConvergedBeforeThirdRepeat(c, env.scorers, h2);
    ConvergedOnThirdRepeat(c, env.scorers, h3);
    RunStopsAfterThree(stop, next, h0, fuel);
  }
}
