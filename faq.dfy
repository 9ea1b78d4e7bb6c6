/** The FAQ fallback `get_closest_faq`: normalise the question and every
    stored FAQ question, score the question against each stored one, take
    the first best-scoring FAQ (`np.argmax`) and answer with it only when its
    score beats 0.1. The TF-IDF weighting and cosine similarity are an
    input: a score for the query against each document of the fitted corpus. */
module Faq {
  import opened Preprocess
  import opened Replies

  /** One row of the FAQ table: its `Question` and `Answer` columns. */
  datatype FaqEntry = FaqEntry(question: string, answer: string)

  /** Similarity of a normalised query to document `i` of a normalised
      corpus, as fitted and scored by TF-IDF and cosine similarity. */
  type Similarity = (seq<string>, string, nat) -> real

  /** The confidence threshold: a best score must exceed it. */
  const Threshold: real := 0.1

  const NoAnswerMessage := "I'm sorry, I couldn't find an answer to your question. Can you ask in a different way?"

  /** `i` is the first position holding the largest score. */
  predicate IsFirstMax(scores: seq<real>, i: int) {
    && 0 <= i < |scores|
    && (forall j :: 0 <= j < |scores| ==> scores[j] <= scores[i])
    && (forall j :: 0 <= j < i ==> scores[j] < scores[i])
  }

  /** `np.argmax`: the lowest index among those holding the maximum. */
  function ArgMax(scores: seq<real>): (r: nat)
    requires |scores| > 0
    ensures IsFirstMax(scores, r)
  {
    if |scores| == 1 then 0
    else
      var k := ArgMax(scores[..|scores| - 1]);
      if scores[|scores| - 1] > scores[k] then |scores| - 1 else k
  }

  /** The first maximum is unique, so ArgMax is the only index it could be. */
  lemma FirstMaxUnique(scores: seq<real>, i: int, j: int)
    requires IsFirstMax(scores, i) && IsFirstMax(scores, j)
    ensures i == j
  {
    var lo, hi := if i < j then i else j, if i < j then j else i;
    assert scores[hi] <= scores[lo];
  }

  /** The decision after scoring: the answer of the first best-scoring FAQ
      when its score beats the threshold, the apology otherwise. An empty
      FAQ table cannot be fitted. */
  function BestAnswer(faqs: seq<FaqEntry>, scores: seq<real>): (r: Reply)
    requires |scores| == |faqs|
    ensures faqs == [] <==> r == Failure(EmptyVocabulary)
    ensures (exists j :: 0 <= j < |scores| && scores[j] > Threshold) ==>
              exists i :: IsFirstMax(scores, i) && r == Answer(faqs[i].answer)
    ensures faqs != [] && (forall j :: 0 <= j < |scores| ==> scores[j] <= Threshold) ==>
              r == Answer(NoAnswerMessage)
  {
    if faqs == [] then Failure(EmptyVocabulary)
    else
      var k := ArgMax(scores);
      if scores[k] > Threshold then Answer(faqs[k].answer) else Answer(NoAnswerMessage)
  }

  /** `np.argmax` never lands after a position holding the maximum. */
  lemma ArgMaxAtMost(scores: seq<real>, i: nat)
    requires i < |scores|
    requires forall k :: 0 <= k < |scores| ==> scores[k] <= scores[i]
    ensures ArgMax(scores) <= i
  {
    var m := ArgMax(scores);
    assert scores[i] == scores[m];
  }

  /** Equal top scores: the later of two tied FAQs is never chosen; the
      choice falls on the earlier one or on a still earlier FAQ. */
  lemma TieGoesToEarliest(faqs: seq<FaqEntry>, scores: seq<real>, i: nat, j: nat)
    requires |scores| == |faqs|
    requires i < j < |scores| && scores[i] == scores[j]
    requires forall k :: 0 <= k < |scores| ==> scores[k] <= scores[j]
    ensures ArgMax(scores) <= i
    ensures scores[j] > Threshold ==> exists m :: 0 <= m <= i && BestAnswer(faqs, scores) == Answer(faqs[m].answer)
  {
    ArgMaxAtMost(scores, i);
    var m := ArgMax(scores);
    if scores[j] > Threshold {
      assert faqs != [] && scores[m] > Threshold;
      var r := BestAnswer(faqs, scores);
      assert 0 <= m <= i && r == Answer(faqs[m].answer);
    }
  }

  /** The normalised FAQ questions: the corpus the vectoriser is fitted on. */
  function NormalizedQuestions(faqs: seq<FaqEntry>, kit: Toolkit): (r: seq<string>)
    ensures |r| == |faqs|
    ensures forall i :: 0 <= i < |faqs| ==> r[i] == PreprocessText(faqs[i].question, kit)
  {
    seq(|faqs|, i requires 0 <= i < |faqs| => PreprocessText(faqs[i].question, kit))
  }

  /** One score per FAQ: the query against each document of the corpus. */
  function Scores(corpus: seq<string>, query: string, similarity: Similarity): (r: seq<real>)
    ensures |r| == |corpus|
    ensures forall i :: 0 <= i < |corpus| ==> r[i] == similarity(corpus, query, i)
  {
    seq(|corpus|, i requires 0 <= i < |corpus| => similarity(corpus, query, i))
  }

  /** `get_closest_faq(user_input)`. */
  function GetClosestFaq(userInput: string, faqs: seq<FaqEntry>, kit: Toolkit, similarity: Similarity): (r: Reply)
    ensures faqs == [] <==> r.Failure?
    ensures r.Failure? ==> r == Failure(EmptyVocabulary)
  {
    var corpus := NormalizedQuestions(faqs, kit);
    BestAnswer(faqs, Scores(corpus, PreprocessText(userInput, kit), similarity))
  }

  /** A query that scores no better than the threshold against every FAQ,
      such as one sharing no term with any of them, gets the apology. */
  lemma NoConfidentMatch(userInput: string, faqs: seq<FaqEntry>, kit: Toolkit, similarity: Similarity)
    requires faqs != []
    requires var corpus := NormalizedQuestions(faqs, kit);
             forall i :: 0 <= i < |faqs| ==> similarity(corpus, PreprocessText(userInput, kit), i) <= Threshold
    ensures GetClosestFaq(userInput, faqs, kit, similarity) == Answer(NoAnswerMessage)
  {
  }

  /** A query scoring 1.0 (its normalised form equals a stored question's)
      is always answered from the FAQ table, by the first FAQ scoring 1.0
      when scores never exceed 1.0. */
  lemma PerfectMatchAnswered(userInput: string, faqs: seq<FaqEntry>, kit: Toolkit, similarity: Similarity, i: nat)
    requires i < |faqs|
    requires var corpus := NormalizedQuestions(faqs, kit);
             var q := PreprocessText(userInput, kit);
             && similarity(corpus, q, i) == 1.0
             && (forall j :: 0 <= j < |faqs| ==> similarity(corpus, q, j) <= 1.0)
             && (forall j :: 0 <= j < i ==> similarity(corpus, q, j) < 1.0)
    ensures GetClosestFaq(userInput, faqs, kit, similarity) == Answer(faqs[i].answer)
  {
    var scores := Scores(NormalizedQuestions(faqs, kit), PreprocessText(userInput, kit), similarity);
    var r := BestAnswer(faqs, scores);
    assert scores[i] > Threshold;
    var m :| IsFirstMax(scores, m) && r == Answer(faqs[m].answer);
    assert IsFirstMax(scores, i);
    FirstMaxUnique(scores, i, m);
  }
}
