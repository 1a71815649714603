/** Messages of a chat room: one utterance each, immutable once created. */
module Messages {

  datatype Option<+T> = None | Some(value: T)

  /** One utterance: its text, the name of the model that produced it
      ("given" for a seed prompt) and the sampling seed, if any. */
  datatype Message = Message(content: string, model: string, seed: Option<int>)

  /** The label a message carries when it was not produced by a model. */
  const GivenLabel: string := "given"

  /** A seed prompt: only its content is supplied, the other fields take their defaults. */
  function Given(content: string): Message
  {
    Message(content, GivenLabel, None)
  }

  /** The contents of a list of messages, in order. */
  function Contents(h: seq<Message>): (r: seq<string>)
    ensures |r| == |h|
    ensures forall i :: 0 <= i < |h| ==> r[i] == h[i].content
  {
    if h == [] then [] else [h[0].content] + Contents(h[1..])
  }
}
