/** The Submit handler: chunk the document, pick the most similar chunk,
    then either ask the model or escalate the question by e-mail. */
module App {
  import opened PyText
  import opened Chunker
  import opened Relevance
  import opened AnswerGenerator
  import opened Escalation

  /** Below this similarity the document is deemed not to cover the question. */
  const Threshold: real := 0.2

  /** What the page shows after Submit: the read error, the answer, the
      "query logged" warning, the "please provide your email" warning, or a
      traceback (the similarity step raises on a document without text). */
  datatype Outcome = ReadErr(message: string) | Answered(answer: string) | Logged(email: string) | AskEmail | Uncaught

  /** The TF-IDF cosine similarity of a question against each chunk. */
  type Scorer = (string, seq<string>) -> seq<real>

  /** The similarity step yields one score per chunk. */
  ghost predicate OneScorePerChunk(similarity: Scorer) {
    forall q, cs :: |similarity(q, cs)| == |cs|
  }

  /** The outcome of one submission. */
  function Decide(doc: Document, question: string, email: string, similarity: Scorer, post: Request -> Reply): Outcome
    requires OneScorePerChunk(similarity)
  {
    match LoadAndChunk(doc, DefaultChunkSize)
    case ReadError(message) => ReadErr(message)
    case Chunks(chunks) =>
      match FindRelevantChunk(chunks, similarity(question, chunks))
      case None => Uncaught
      case Some(best) =>
        if best.score < Threshold then
          if email != "" then Logged(email) else AskEmail
        else
          Answered(QueryAiModel(question, best.chunk, post))
  }

  /** What pressing Submit does. Only an escalation with an
      e-mail address touches the log, and then by one record at most. */
  method Submit(log: QueryLog, doc: Document, question: string, email: string,
                similarity: Scorer, post: Request -> Reply, writable: bool)
    returns (o: Outcome)
    requires OneScorePerChunk(similarity)
    modifies log
    ensures o == Decide(doc, question, email, similarity, post)
    ensures log.lines == if o.Logged? && writable then old(log.lines) + [LogLine(email, question)] else old(log.lines)
  {
    var loaded := LoadAndChunk(doc, DefaultChunkSize);
    if loaded.ReadError? {
      o := ReadErr(loaded.message);
      return;
    }
    var chunks := loaded.chunks;
    var found := FindRelevantChunk(chunks, similarity(question, chunks));
    if found.None? {
      o := Uncaught;
      return;
    }
    var best := found.value;
    if best.score < Threshold {
      if email != "" {
        log.Append(email, question, writable);
        o := Logged(email);
      } else {
        o := AskEmail;
      }
    } else {
      o := Answered(QueryAiModel(question, best.chunk, post));
    }
  }

  /** A document that cannot be read ends the submission with its error
      message, whatever the question, the address, the scores and the
      endpoint: nothing is scored, asked or logged. */
  lemma ReadFailureShortCircuits(cause: string, question: string, email: string, similarity: Scorer, post: Request -> Reply)
    requires OneScorePerChunk(similarity)
    ensures Decide(Unreadable(cause), question, email, similarity, post) == ReadErr("Error reading document: " + cause)
  {
  }

  /** A document with no visible text leaves nothing to score and the
      handler fails with an exception. In the model, where scoring and the
      reply never raise, that is the only way it fails. */
  lemma UncaughtIffBlank(paras: seq<string>, question: string, email: string, similarity: Scorer, post: Request -> Reply)
    requires OneScorePerChunk(similarity)
    ensures Decide(Paragraphs(paras), question, email, similarity, post) == Uncaught
        <==> forall i :: 0 <= i < |paras| ==> AllSpace(paras[i])
  {
    FullTextEmptyIff(paras);
    ChunkSizes(FullText(paras), DefaultChunkSize);
  }

  /** The model is asked exactly when some chunk scores at least the
      threshold, and it is asked about the first best-scoring chunk. */
  lemma AnsweredIffSomeChunkRelevant(paras: seq<string>, question: string, email: string, similarity: Scorer, post: Request -> Reply)
    requires OneScorePerChunk(similarity)
    ensures var chunks := LoadAndChunk(Paragraphs(paras), DefaultChunkSize).chunks;
      var scores := similarity(question, chunks);
      var o := Decide(Paragraphs(paras), question, email, similarity, post);
      && (o.Answered? <==> exists j :: 0 <= j < |scores| && scores[j] >= Threshold)
      && (o.Answered? ==> exists i :: IsFirstMax(scores, i) && o.answer == QueryAiModel(question, chunks[i], post))
  {
    var chunks := LoadAndChunk(Paragraphs(paras), DefaultChunkSize).chunks;
    var scores := similarity(question, chunks);
    if chunks != [] {
      var i := ArgMax(scores);
      assert scores[i] >= Threshold <==> exists j :: 0 <= j < |scores| && scores[j] >= Threshold;
    }
  }

  /** Below the threshold the outcome depends only on the address: a
      non-empty one is logged, an empty one is asked for. */
  lemma EscalationIffNoChunkRelevant(paras: seq<string>, question: string, email: string, similarity: Scorer, post: Request -> Reply)
    requires OneScorePerChunk(similarity)
    ensures var chunks := LoadAndChunk(Paragraphs(paras), DefaultChunkSize).chunks;
      var scores := similarity(question, chunks);
      var o := Decide(Paragraphs(paras), question, email, similarity, post);
      var none := chunks != [] && forall j :: 0 <= j < |scores| ==> scores[j] < Threshold;
      && (o.Logged? <==> none && email != "")
      && (o.AskEmail? <==> none && email == "")
      && (o.Logged? ==> o.email == email)
  {
    var chunks := LoadAndChunk(Paragraphs(paras), DefaultChunkSize).chunks;
    var scores := similarity(question, chunks);
    if chunks != [] {
      var i := ArgMax(scores);
      assert scores[i] < Threshold <==> forall j :: 0 <= j < |scores| ==> scores[j] < Threshold;
    }
  }

  /** The end-to-end scenario of a one-sentence synopsis ("Project X improves
      truck safety by detecting overturning risk."): a single paragraph
      without white-space margins and no longer than a chunk is its own
      single chunk, and a question that scores at least the threshold
      against it reaches the model with that chunk. */
  lemma SingleParagraphScenario(s: string, question: string, email: string, similarity: Scorer, post: Request -> Reply)
    requires s != [] && !IsSpace(s[0]) && !IsSpace(s[|s| - 1]) && |s| <= DefaultChunkSize
    requires OneScorePerChunk(similarity)
    ensures LoadAndChunk(Paragraphs([s]), DefaultChunkSize) == Chunks([s])
    ensures similarity(question, [s])[0] >= Threshold ==>
              Decide(Paragraphs([s]), question, email, similarity, post) == Answered(QueryAiModel(question, s, post))
  {
    StripFixedPoint(s);
    assert Kept(s) == [s];
    CleanCons(s, []);
    assert [s] + [] == [s];
    ChunkUnfold(s, DefaultChunkSize);
  }
}
