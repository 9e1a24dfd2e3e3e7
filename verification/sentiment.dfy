/**
 * The sentiment label of a review: a threshold on the polarity score of its
 * text. The score itself comes from an external sentiment scorer and is
 * taken here as a given real number.
 */
module Sentiments {

  datatype Sentiment = Positive | Negative | Neutral

  /** The label of a polarity score, by its sign. Total: every score gets exactly one label. */
  function GetSentiment(polarity: real): (s: Sentiment)
    ensures s == Positive <==> polarity > 0.0
    ensures s == Negative <==> polarity < 0.0
    ensures s == Neutral <==> polarity == 0.0
  {
    if polarity > 0.0 then Positive
    else if polarity < 0.0 then Negative
    else Neutral
  }

  /** Labels ordered from the most unfavourable to the most favourable. */
  function Favourability(s: Sentiment): int {
    match s
    case Negative => -1
    case Neutral => 0
    case Positive => 1
  }

  /** A higher polarity score never gets a less favourable label. */
  lemma SentimentMonotone(p: real, q: real)
    requires p <= q
    ensures Favourability(GetSentiment(p)) <= Favourability(GetSentiment(q))
  {
  }
}
