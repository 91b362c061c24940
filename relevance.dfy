/** `find_relevant_chunk`: given one similarity score per chunk, pick the
    chunk with the highest score. The TF-IDF cosine scores themselves come
    from outside the model; only the selection is modelled. */
module Relevance {

  datatype Option<T> = None | Some(value: T)

  /** The pair `find_relevant_chunk` returns. */
  datatype Best = Best(chunk: string, score: real)

  /** `i` is where numpy's `argmax` stops: the first index of a maximum. */
  ghost predicate IsFirstMax(scores: seq<real>, i: int) {
    && 0 <= i < |scores|
    && (forall j :: 0 <= j < |scores| ==> scores[j] <= scores[i])
    && (forall j :: 0 <= j < i ==> scores[j] < scores[i])
  }

  /** numpy's `argmax`: a left-to-right scan that moves only on a
      strictly larger score, so ties go to the earliest index. */
  function ArgMax(scores: seq<real>): (i: nat)
    requires scores != []
    ensures IsFirstMax(scores, i)
  {
    if |scores| == 1 then 0
    else
      var k := ArgMax(scores[..|scores| - 1]);
      if scores[|scores| - 1] > scores[k] then |scores| - 1 else k
  }

  /** There is only one first maximum, so the selection is determined by
      the scores alone. */
  lemma FirstMaxUnique(scores: seq<real>, i: int, j: int)
    requires IsFirstMax(scores, i) && IsFirstMax(scores, j)
    ensures i == j
  {
    assert scores[i] <= scores[j] && scores[j] <= scores[i];
  }

  /** `find_relevant_chunk(question, chunks)` once the similarities are known.
      With no chunk there is nothing to take the maximum of and numpy
      raises; `None` stands for that exception. */
  function FindRelevantChunk(chunks: seq<string>, scores: seq<real>): (r: Option<Best>)
    requires |scores| == |chunks|
    ensures r.None? <==> chunks == []
    ensures r.Some? ==> exists i :: IsFirstMax(scores, i) && r.value == Best(chunks[i], scores[i])
  {
    if chunks == [] then None
    else
      var i := ArgMax(scores);
      Some(Best(chunks[i], scores[i]))
  }

  /** The chunk returned is one of the input chunks, its score is one of the
      scores and no score exceeds it; when every score lies in [0, 1] so
      does the returned one. */
  lemma BestIsMaximal(chunks: seq<string>, scores: seq<real>)
    requires |scores| == |chunks| && chunks != []
    ensures var r := FindRelevantChunk(chunks, scores);
      && r.Some?
      && r.value.chunk in chunks
      && r.value.score in scores
      && (forall j :: 0 <= j < |scores| ==> scores[j] <= r.value.score)
      && ((forall j :: 0 <= j < |scores| ==> 0.0 <= scores[j] <= 1.0) ==> 0.0 <= r.value.score <= 1.0)
  {
    var r := FindRelevantChunk(chunks, scores);
    var i :| IsFirstMax(scores, i) && r.value == Best(chunks[i], scores[i]);
  }
}
