# Chat room convergence detector, modelled in Dafny

Several language-model agents take turns talking in a chat room. A
convergence ("quine") detector decides when the conversation has settled
into a repeating pattern. This project models the detector, the pairwise
checks it uses, the role tagging an agent applies to its context, and the
room's turn loop. All of them live in `chatroom.py`.

- `messages.dfy`, module `Messages`: the `Message` record (content, model
  label, optional seed) and the default "given" seed message.
- `checks.dfy`, module `Checks`: the pairwise checks. `Metric` is the
  closed choice `Equality | Jaro(t) | Fuzzy(t) | Cosine(model, t)`. It
  replaces the lookup of a check by name. The three similarity scorers are
  external. They come in as function values (`Scorers`), and each threshold
  check compares their score with a strict `>`.
- `convergence.dfy`, module `Convergence`: the detector.
  - `Strided(h, s)` is the slice `h[::-s]`: newest message first, then
    every `s`-th message counted backward.
  - `Window` truncates that walk to `minLen`.
  - `FirstStride` is the scan over strides `1..maxStep` in increasing order.
    It stops at the first stride whose full-length window passes. It is an
    instance of `FirstFrom`, a scan over any test on numbers.
  - `Detect` is the loop that performs the scan.
  - `Offset(k, s)` is `k * s`, written as repeated addition so that the
    index proofs stay linear. `OffsetIsProduct` proves the two equal; it is a
    helper for reading `Strided`'s contract. `StridedAt` and `WindowShape`
    state positions as `k * s` directly.
- `agents.dfy`, module `Agents`: how a model builds its prompt.
  - Caller message `i` of `n` is tagged "system" iff `i % 2 == n % 2`.
    Otherwise it is tagged "user".
  - A non-empty system prompt is then put in front as one extra "system"
    entry.
  - `Call` builds that list entry by entry and hands it to the chat
    capability. The chat capability is a function parameter.
- `room.dfy`, module `Rooms`: the room.
  - `Room` is a class. Its `chatHistory` field is a `seq<Message>` that the
    constructor seeds and that `GenerateMessage` extends.
  - `Run` is the specification of the turn loop. Stop when out of turns or
    when the detector fires. Otherwise append the chosen agent's reply to
    the last ten messages' contents, then continue.
  - The random agent choice is a supplied function from turn number to
    roster index. A turn that reaches the agent choice needs that index to be
    valid; `PicksInRange` asks it of every turn of a whole run.
  - The chat capability receives the turn number besides the model name and
    the prompt. It stands for the fresh sampling seed each call draws, so the
    same context can get different replies on different turns.

The model follows the code in two places where a reader might expect
otherwise:
- The context an agent sees is always the last 10 messages
  (`ContextLength`). The room's `maxMemory` setting is stored but has no
  effect on it.
- Roles are assigned over the caller's messages before the system prompt is
  inserted. Parity is therefore counted without the system prompt
  (`SystemPromptKeepsRoles`). A design in which the preamble is inserted
  first and roles are then assigned over the whole list would differ; the
  model follows the code.

## Model

| member | source | states |
|---|---|---|
| `Messages.Contents` | chatroom.py:152 | one content per message, in order |
| `Checks.AllAdjacentMeaning` | chatroom.py:27-30 | the adjacent-pair scan is true iff the predicate holds for every adjacent pair; vacuous below two messages |
| `Checks.EqualityCheckMeaning` | chatroom.py:26-30 | equality is true iff every adjacent pair has identical content; true for 0 or 1 messages |
| `Checks.EqualityMeansOneText` | chatroom.py:26-30 | adjacent equality holds iff every message of the slice has the same content |
| `Checks.JaroCheckMeaning` | chatroom.py:48-57 | true iff every adjacent pair's Jaro score is strictly greater than the threshold |
| `Checks.FuzzyCheckMeaning` | chatroom.py:60-66 | true iff every adjacent pair's integer ratio is strictly greater than the threshold |
| `Checks.CosineCheckMeaning` | chatroom.py:33-45 | true iff the cosine score of every adjacent pair's embeddings, under the named embedding model, is strictly greater than the threshold |
| `Checks.CheckMeaning` | chatroom.py:82-84 | the configured metric decides: equality of adjacent contents, or every adjacent score strictly above the threshold |
| `Checks.AtThresholdFails` | chatroom.py:42-66 | one adjacent pair scoring exactly the threshold (or below) makes a threshold check false |
| `Convergence.OffsetIsProduct` | chatroom.py:88 | helper: the repeated-addition offset used in `Strided`'s contract equals k * s |
| `Convergence.Strided` | chatroom.py:88 | the walk `h[::-s]` is empty for an empty history; otherwise for a history of n messages its length c satisfies (c-1)·s < n <= c·s |
| `Convergence.StridedAt` | chatroom.py:88 | element k of the walk is the message at index n-1-k·s of a history of n messages, so the newest comes first |
| `Convergence.StridedLength` | chatroom.py:88 | the walk over n messages holds ceil(n/s) of them |
| `Convergence.WindowShape` | chatroom.py:88 | the examined slice has length min(minLen, walk length) and element k is the message k strides back from the newest |
| `Convergence.StrideOneWindow` | chatroom.py:88 | at stride 1 the examined slice is the last minLen messages, newest first |
| `Convergence.WindowNoLongerThanHistory` | chatroom.py:88 | the examined slice never has more messages than the history |
| `Convergence.FirstFromIsFirst` | chatroom.py:87-92 | an increasing scan returns the smallest qualifying value in range, none below it qualifies, and it returns nothing iff none in range qualifies |
| `Convergence.FirstStrideIsFirst` | chatroom.py:87-92 | the stride scan returns the smallest stride in [from, maxStep] whose full window passes; no stride below it passes; None iff none in range passes |
| `Convergence.ConvergedIff` | chatroom.py:86-92 | the detector fires iff some stride in [1, maxStep] has a full-length window that passes the check |
| `Convergence.PassingSliceShape` | chatroom.py:88-90 | a stride that passes was checked on exactly minLen messages, spanning (minLen-1)·s positions inside the history |
| `Convergence.ShortHistoryNeverConverges` | chatroom.py:86-92 | a history shorter than minLen never converges, for every metric and stride bound |
| `Convergence.SmallestStrideWins` | chatroom.py:87-91 | the scan reports a stride no larger than any passing stride in range, so of several passing strides the smallest wins |
| `Convergence.Detect` | chatroom.py:86-92 | the loop over strides returns true iff some stride in [1, maxStep] passes, and agrees with the first-stride scan |
| `Agents.PromptShape` | chatroom.py:101-112 | one entry per caller message, in order, content unchanged; entry i is "system" iff i % 2 == n % 2; a non-empty system prompt adds exactly one leading system entry |
| `Agents.LastIsUser` | chatroom.py:106 | the newest caller message is always tagged "user" and is the last entry |
| `Agents.RolesAlternate` | chatroom.py:106 | adjacent caller messages get different roles |
| `Agents.SystemPromptKeepsRoles` | chatroom.py:103-112 | with a system prompt, the entries after it are exactly the prompt built without one |
| `Agents.Call` | chatroom.py:101-113 | the chat capability receives the agent's name and exactly the role-tagged prompt, and its reply is returned |
| `Rooms.Context` | chatroom.py:152 | the agent sees the contents of the last min(10, n) of its n messages, oldest first |
| `Rooms.Zip` | chatroom.py:132-136 | names are paired with system prompts position by position; the roster is as long as the shorter list |
| `Rooms.RunBounded` | chatroom.py:148 | a run never produces more messages than it has turns |
| `Rooms.RunStopsEarlyOnlyWhenStopped` | chatroom.py:148-150 | a run that produces fewer messages than its turns ended because the stop rule held of the final history |
| `Rooms.RunTurn` | chatroom.py:148-155 | before turn k the stop rule did not hold, and message k is the next-message rule applied to the history so far on turn t + k |
| `Rooms.RunExtends` | chatroom.py:145-156 | the history after a run keeps the old history as its prefix, grows by at most the number of turns, and stops short only when the stop rule holds of it |
| `Rooms.RunStep` | chatroom.py:149-155 | a turn on which the stop rule does not hold appends the next message and leaves the rest of the run to the extended history |
| `Rooms.RunDone` | chatroom.py:148-150 | with no turns left, or when the stop rule holds, the run adds nothing |
| `Rooms.Room.constructor` | chatroom.py:123-143 | the roster is the given agents or the zipped names; the history is one "given" message per initial prompt, in order |
| `Rooms.Room.Turn` | chatroom.py:149-154 | the detector runs on the whole history; if it fires nothing changes and no agent is chosen (so an empty roster is fine); otherwise the chosen agent's reply to the last ten contents, for this turn, is appended and returned |
| `Rooms.Room.GenerateMessage` | chatroom.py:145-156 | yields the current history, then each new message; the history becomes old history + the run; at most max(0, maxIterations) messages are added; the prefix is unchanged; fewer are added only when the detector fires on the final history |
| `Rooms.ShortForStrideTwoOrMore` | chatroom.py:88 | in a history of at most three messages, every stride of 2 or more visits at most two of them |
| `Rooms.StrideOneSeesTheSeed` | chatroom.py:88-90 | three messages whose first two contents differ fail equality over three messages at stride 1 |
| `Rooms.NotConvergedBeforeThirdRepeat` | chatroom.py:86-92 | three messages whose first two contents differ never trigger equality over three messages, at any stride bound |
| `Rooms.StrideOneSeesTheRepeat` | chatroom.py:88-90 | three trailing messages with one content pass equality over three messages at stride 1 |
| `Rooms.ConvergedOnThirdRepeat` | chatroom.py:86-92 | three trailing messages with one content make an equality detector over three messages fire |
| `Rooms.RunStopsAfterThree` | chatroom.py:148-155 | a run whose stop rule is false on the first three histories and true on the fourth produces exactly three messages |
| `Rooms.ThreeLolsStopTheRoom` | chatroom.py:145-155 | seeded with one message other than "LOL", with agents that always answer "LOL" and equality over three messages, a room with three or more turns produces exactly three messages |

## Left out

- The network client and the command line (`client.py`, `main.py`) are not part of this model. The chat capability is the function `Env.chat`. It is total, so retries, time-outs and errors raised by the chat call are not modelled.
- The scorers' internals (Jaro similarity, the fuzzy ratio, numpy cosine similarity) are not modelled: floating point and foreign libraries. They are function parameters. Thresholds and scores are `real`, so floating-point rounding is not modelled. The cosine check's network calls for embeddings are side effects and are not modelled either, and neither is the zero-vector fallback for a missing embedding model.
- `random.choice` is the supplied function `Env.pick`, from turn number to roster index. Random seeding and the distribution are not modelled.
- Rooms.Room.GenerateMessage: requires a valid roster index for every turn. With an empty roster, `random.choice` raises IndexError at the first turn where the detector does not fire. That can happen when model names are zipped with an empty system-prompt list. The model does not capture this error. The requirement also excludes empty-roster runs that never reach `random.choice` (`maxIterations <= 0`, or the detector fires at the first check), which the source completes normally; `Room.Turn` alone does cover a firing turn with an empty roster.
- Rooms.Room.constructor: requires a non-empty model list, because the source reads its first element to choose between names and agents. A list of mixed names and agents is not modelled.
- The generator is a method that returns everything it yields. Laziness is not modelled, and neither is a consumer that reads the history while the generator is suspended.
- The model's `chat_kwargs` (options passed to the chat call) are not modelled. The per-call random sampling seed is represented only by the turn number given to `Env.chat`. The reply, including the seed it records, is whatever `Env.chat` returns for that name, prompt and turn.
- `minLen` is a `nat`. The source's slice `[:min_len]` with a negative `min_len` would cut from the end, and the model does not cover that case.
- A detector built with its defaults names the fuzzy check with no threshold argument, which raises a TypeError when the check runs. `Metric` always carries its threshold, so that error is not modelled.
- `Room.run` (progress bar), `Room.to_disk` (timestamped JSON file) and the `Message` display formatting are I/O and are not modelled.
- The system-prompt broadcast and count check done before a room is built (main.py:81-85) are not modelled. The room itself pairs names and prompts with `zip`, which truncates silently; `Zip` models that.
