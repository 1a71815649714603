/** The pairwise checks a convergence detector applies to a slice of history.
    Each one asks whether every adjacent pair of the slice satisfies a predicate. */
module Checks {
  import opened Messages

  /** The external similarity scorers. Their internals (Jaro similarity,
      the 0..100 edit-distance ratio, cosine similarity of embeddings fetched
      from an embedding model) are not part of this model. */
  datatype Scorers = Scorers(
    jaro: (string, string) -> real,
    ratio: (string, string) -> int,
    cosine: (string, string, string) -> real)  // embedding model, first text, second text

  /** The check a detector is configured with, chosen once at construction. */
  datatype Metric =
    | Equality
    | Jaro(threshold: real)
    | Fuzzy(threshold: real)
    | Cosine(model: string, threshold: real)

  /** Whether `ok` holds of every adjacent pair, scanned from the front. */
  function AllAdjacent(h: seq<Message>, ok: (Message, Message) -> bool): bool
    decreases |h|
  {
    if |h| < 2 then true
    else ok(h[0], h[1]) && AllAdjacent(h[1..], ok)
  }

  /** The scan is true iff `ok` holds of every adjacent pair; vacuously so below two messages. */
  lemma {:induction false} AllAdjacentMeaning(h: seq<Message>, ok: (Message, Message) -> bool)
    ensures AllAdjacent(h, ok) <==> forall i :: 0 <= i < |h| - 1 ==> ok(h[i], h[i + 1])
    decreases |h|
  {
    if |h| >= 2 {
      AllAdjacentMeaning(h[1..], ok);
      assert forall i :: 0 < i < |h| - 1 ==> h[i] == h[1..][i - 1];
    }
  }

  /** Exact equality of adjacent contents. */
  function EqualityCheck(h: seq<Message>): bool
  {
    AllAdjacent(h, (a: Message, b: Message) => a.content == b.content)
  }

  lemma EqualityCheckMeaning(h: seq<Message>)
    ensures EqualityCheck(h) <==> forall i :: 0 <= i < |h| - 1 ==> h[i].content == h[i + 1].content
    ensures |h| <= 1 ==> EqualityCheck(h)
  {
    AllAdjacentMeaning(h, (a: Message, b: Message) => a.content == b.content);
  }

  /** Jaro similarity of every adjacent pair strictly above the threshold. */
  function JaroCheck(h: seq<Message>, jaro: (string, string) -> real, threshold: real): bool
  {
    AllAdjacent(h, (a: Message, b: Message) => jaro(a.content, b.content) > threshold)
  }

  lemma JaroCheckMeaning(h: seq<Message>, jaro: (string, string) -> real, threshold: real)
    ensures JaroCheck(h, jaro, threshold)
        <==> forall i :: 0 <= i < |h| - 1 ==> jaro(h[i].content, h[i + 1].content) > threshold
  {
    AllAdjacentMeaning(h, (a: Message, b: Message) => jaro(a.content, b.content) > threshold);
  }

  /** Edit-distance ratio of every adjacent pair strictly above the threshold. */
  function FuzzyCheck(h: seq<Message>, ratio: (string, string) -> int, threshold: real): bool
  {
    AllAdjacent(h, (a: Message, b: Message) => ratio(a.content, b.content) as real > threshold)
  }

  lemma FuzzyCheckMeaning(h: seq<Message>, ratio: (string, string) -> int, threshold: real)
    ensures FuzzyCheck(h, ratio, threshold)
        <==> forall i :: 0 <= i < |h| - 1 ==> ratio(h[i].content, h[i + 1].content) as real > threshold
  {
    AllAdjacentMeaning(h, (a: Message, b: Message) => ratio(a.content, b.content) as real > threshold);
  }

  /** Cosine similarity of the embeddings of every adjacent pair strictly above the threshold. */
  function CosineCheck(h: seq<Message>, cosine: (string, string, string) -> real, model: string, threshold: real): bool
  {
    AllAdjacent(h, (a: Message, b: Message) => cosine(model, a.content, b.content) > threshold)
  }

  lemma CosineCheckMeaning(h: seq<Message>, cosine: (string, string, string) -> real, model: string, threshold: real)
    ensures CosineCheck(h, cosine, model, threshold)
        <==> forall i :: 0 <= i < |h| - 1 ==> cosine(model, h[i].content, h[i + 1].content) > threshold
  {
    AllAdjacentMeaning(h, (a: Message, b: Message) => cosine(model, a.content, b.content) > threshold);
  }

  /** The score a threshold metric gives a pair of contents. */
  function Score(m: Metric, sc: Scorers, a: string, b: string): real
    requires !m.Equality?
  {
    match m
    case Jaro(_) => sc.jaro(a, b)
    case Fuzzy(_) => sc.ratio(a, b) as real
    case Cosine(model, _) => sc.cosine(model, a, b)
  }

  /** The configured check applied to a slice. */
  function Check(m: Metric, sc: Scorers, h: seq<Message>): bool
  {
    match m
    case Equality => EqualityCheck(h)
    case Jaro(t) => JaroCheck(h, sc.jaro, t)
    case Fuzzy(t) => FuzzyCheck(h, sc.ratio, t)
    case Cosine(model, t) => CosineCheck(h, sc.cosine, model, t)
  }

  /** The configured metric decides: equality of adjacent contents, or every
      adjacent score strictly above the threshold. */
  lemma CheckMeaning(m: Metric, sc: Scorers, h: seq<Message>)
    ensures m.Equality? ==> (Check(m, sc, h) <==> forall i :: 0 <= i < |h| - 1 ==> h[i].content == h[i + 1].content)
    ensures !m.Equality? ==>
      (Check(m, sc, h) <==> forall i :: 0 <= i < |h| - 1 ==> Score(m, sc, h[i].content, h[i + 1].content) > m.threshold)
  {
    match m
    case Equality => EqualityCheckMeaning(h);
    case Jaro(t) => JaroCheckMeaning(h, sc.jaro, t);
    case Fuzzy(t) => FuzzyCheckMeaning(h, sc.ratio, t);
    case Cosine(model, t) => CosineCheckMeaning(h, sc.cosine, model, t);
  }

  /** Equality of adjacent contents means the whole slice carries one text. */
  lemma {:induction false} EqualityMeansOneText(h: seq<Message>)
    ensures EqualityCheck(h) <==> forall i, j :: 0 <= i < |h| && 0 <= j < |h| ==> h[i].content == h[j].content
  {
    EqualityCheckMeaning(h);
    if EqualityCheck(h) && |h| > 0 {
      forall i | 0 <= i < |h| ensures h[i].content == h[0].content {
        SameAsFirst(h, i);
      }
    }
  }

  lemma {:induction false} SameAsFirst(h: seq<Message>, i: nat)
    requires EqualityCheck(h) && i < |h|
    ensures h[i].content == h[0].content
  {
    EqualityCheckMeaning(h);
    if i > 0 {
      SameAsFirst(h, i - 1);
    }
  }

  /** A pair scoring exactly the threshold fails a threshold check; so does any pair below it. */
  lemma AtThresholdFails(m: Metric, sc: Scorers, h: seq<Message>, i: nat)
    requires !m.Equality? && i + 1 < |h|
    requires Score(m, sc, h[i].content, h[i + 1].content) <= m.threshold
    ensures !Check(m, sc, h)
  {
    CheckMeaning(m, sc, h);
  }
}
