/** A model agent: turns a list of context strings into a role-tagged prompt
    and hands it to the external chat capability. */
module Agents {
  import opened Messages

  datatype Role = System | User

  /** One entry of the prompt sent to the chat capability. */
  datatype Entry = Entry(role: Role, content: string)

  /** A model: its name and its (possibly empty) system prompt. */
  datatype Agent = Agent(name: string, systemPrompt: string)

  /** The role given to caller message `i` of `n`: "system" iff its index has
      the parity of `n`, so roles alternate and the last message is "user". */
  function RoleAt(i: nat, n: nat): Role
  {
    if i % 2 == n % 2 then System else User
  }

  /** The caller's messages tagged by position, before any system prompt is added. */
  function Tagged(messages: seq<string>): seq<Entry>
  {
    seq(|messages|, i requires 0 <= i < |messages| => Entry(RoleAt(i, |messages|), messages[i]))
  }

  /** The prompt the chat capability receives: a non-empty system prompt goes
      in front of the tagged messages as one extra "system" entry. */
  function Prompt(systemPrompt: string, messages: seq<string>): seq<Entry>
  {
    (if systemPrompt != "" then [Entry(System, systemPrompt)] else []) + Tagged(messages)
  }

  /** One entry per caller message, in order, content unchanged; a non-empty
      system prompt adds exactly one leading "system" entry. */
  lemma PromptShape(systemPrompt: string, messages: seq<string>)
    ensures var p, d := Prompt(systemPrompt, messages), if systemPrompt != "" then 1 else 0;
      && |p| == |messages| + d
      && (systemPrompt != "" ==> p[0] == Entry(System, systemPrompt))
      && forall i :: 0 <= i < |messages| ==>
           p[d + i].content == messages[i] && (p[d + i].role == System <==> i % 2 == |messages| % 2)
  {
  }

  /** The newest caller message is always tagged "user". */
  lemma {:induction false} LastIsUser(systemPrompt: string, messages: seq<string>)
    requires |messages| > 0
    ensures var p := Prompt(systemPrompt, messages); p[|p| - 1] == Entry(User, messages[|messages| - 1])
  {
  }

  /** Adjacent caller messages get different roles. */
  lemma {:induction false} RolesAlternate(messages: seq<string>, i: nat)
    requires i + 1 < |messages|
    ensures Tagged(messages)[i].role != Tagged(messages)[i + 1].role
  {
  }

  /** Roles are assigned over the caller's messages alone: adding a system
      prompt does not shift the parity of the entries after it. */
  lemma SystemPromptKeepsRoles(systemPrompt: string, messages: seq<string>)
    requires systemPrompt != ""
    ensures Prompt(systemPrompt, messages)[1..] == Prompt("", messages)
  {
  }

  /** Calling an agent: build the role-tagged list entry by entry, put the
      system prompt in front when there is one, and ask the chat capability. */
  method Call(agent: Agent, messages: seq<string>, chat: (string, seq<Entry>) -> Message)
    returns (reply: Message)
    ensures reply == chat(agent.name, Prompt(agent.systemPrompt, messages))
  {
    var entries: seq<Entry> := [];
    var i := 0;
    while i < |messages|
      invariant 0 <= i <= |messages|
      invariant entries == Tagged(messages)[..i]
    {
      var role := if i % 2 == |messages| % 2 then System else User;
      entries := entries + [Entry(role, messages[i])];
      i := i + 1;
    }
    assert entries == Tagged(messages);
    if agent.systemPrompt != "" {
      entries := [Entry(System, agent.systemPrompt)] + entries;
    }
    assert entries == Prompt(agent.systemPrompt, messages);
    reply := chat(agent.name, entries);
  }
}
