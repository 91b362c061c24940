# Project Synopsis QA — verified model of the submit flow

The application answers questions about one project synopsis. On Submit it
reads the synopsis document and cleans its paragraphs: each is stripped,
blank ones are dropped, and the rest are joined with newlines. It cuts the
text into 500-character chunks and scores every chunk against the question.
If the best score reaches 0.2, it sends that chunk and the question to a
chat-completion endpoint and shows the answer. Otherwise it appends an
`Email: …, Query: …` record to a log file when the user gave an e-mail
address, and asks for one when they did not.

This Dafny project models that flow and proves its properties. It is split
into one module per component:

- `PyText` (`text.dfy`) models the Python string operations the code uses:
  `str.strip()`, `str.split(sep)` and `sep.join(parts)`. The proofs show that
  `Strip` is the unique white-space-free core of a string, and that split
  and join are inverse to each other.
- `Chunker` (`chunker.dfy`) models `load_and_chunk_document`. The paragraph
  texts are an input, since the `.docx` reader is not modelled. The proofs
  cover the chunk round trip, the chunk sizes and count, and the shape of
  the cleaned and joined text.
- `Relevance` (`relevance.dfy`) models the argmax in `find_relevant_chunk`
  over a given score sequence. It picks the first index of the maximum, as
  numpy does.
- `AnswerGenerator` (`answer.dfy`) models the request payload, the
  truncation of the error text to its first two colon-separated segments,
  and how each kind of reply becomes the answer string. The endpoint is a
  function parameter from request to reply.
- `Escalation` (`escalation.dfy`) models the log file as a class `QueryLog`
  whose `lines` field is the sequence of writes. `Append` adds one record.
- `App` (`app.dfy`) models the Submit handler. `Submit` is a method over a
  `QueryLog`, and `Decide` is the function that specifies its outcome. The
  lemmas say when each outcome happens.

Behaviour of the code that the model keeps:
- A failed log write is not reported to the user. The exception is caught
  and printed, and the page still says the query has been logged (see
  `App.Submit`, whose `writable` flag is the write's success).
- A document with no visible text is not handled. Scoring an empty chunk
  list raises, and the exception escapes the handler (`App.Uncaught`).
- `chunk_size` 0 is caught as a read error, because `range()` raises inside
  the `try`. A negative size gives no chunks. The handler always passes 500.

## Model

| member | source | states |
|---|---|---|
| PyText.Strip | app.py:32 | `strip()`; its contract is given by `StripHasBounds`, `StripBoundsUnique` and `StripCharacterized` below |
| PyText.Split | app.py:62 | `split(sep)`; never an empty list, and its pieces are given by `SplitPieces` and `JoinSplit` below |
| PyText.Join | app.py:62 | `sep.join(parts)`, also used at app.py:32; `JoinSplit`, `SplitJoin` and `JoinLength` below relate it to `Split` and give its length |
| PyText.TrimStartSpec | app.py:32 | the left-stripped text is a suffix of the input, everything removed is white space, and it is empty or starts with a non-space character |
| PyText.TrimEndSpec | app.py:32 | the right-stripped text is a prefix of the input, everything removed is white space, and it is empty or ends with a non-space character |
| PyText.StripHasBounds | app.py:32 | `strip()` returns a slice of the input with only white space outside it and no white space at either end |
| PyText.StripBoundsUnique | app.py:32 | only one slice has those properties, so the stripped form is unique |
| PyText.StripCharacterized | app.py:32 | any slice with white-space-only margins and non-space ends is exactly what `strip()` returns |
| PyText.StripEmptyIff | app.py:32 | a paragraph strips to the empty string exactly when all of it is white space |
| PyText.StripFixedPoint | app.py:32 | a string with no white-space margins is unchanged by `strip()` |
| PyText.StripIdempotent | app.py:32 | stripping twice is the same as stripping once |
| PyText.SplitPieces | app.py:62 | `split(sep)` returns one more piece than there are separators, and no piece contains the separator |
| PyText.JoinSplit | app.py:62 | joining the pieces of a split with the same separator gives back the original string |
| PyText.SplitJoin | app.py:32 | splitting a join of non-empty, separator-free pieces gives back the pieces |
| PyText.JoinLength | app.py:32 | a join is as long as its pieces plus one separator between each two |
| Chunker.LoadAndChunk | app.py:29-36 | `load_and_chunk_document`; its outcomes are given by `LoadAndChunkSpec` below |
| Chunker.ChunkText | app.py:33 | the list of slices of the joined text; `ChunkConcat`, `ChunkSizes` and `ChunkAt` below give its round trip, sizes, count and elements |
| Chunker.CleanParagraphs | app.py:32 | the stripped, non-blank paragraphs in order; given by `CleanMembers`, `CleanCount` and `CleanAppend` below |
| Chunker.FullText | app.py:32 | the cleaned paragraphs joined with newlines; given by `FullTextEmptyIff` and `LinesOfFullText` below |
| Chunker.ChunkUnfold | app.py:33 | a text longer than the chunk size yields a full first window followed by the chunks of the rest; a shorter non-empty text is a single chunk |
| Chunker.ChunkConcat | app.py:33 | concatenating the chunks reproduces the text exactly, with no gaps and no overlap |
| Chunker.ChunkSizes | app.py:33 | no chunks exactly for the empty text; every chunk is non-empty and at most the chunk size; all but the last have exactly the chunk size; the count is the ceiling of length / size |
| Chunker.ChunkAt | app.py:33 | chunk i starts inside the text at offset i * size and runs to i * size + size or to the end |
| Chunker.LoadAndChunkSpec | app.py:29-36 | an unreadable document and a zero step give the prefixed error string; a negative step gives no chunks; a positive step gives chunks that concatenate to the cleaned text, each non-empty and at most the size |
| Chunker.CleanMembers | app.py:32 | a string is in the cleaned list exactly when it is the non-empty stripped form of some paragraph |
| Chunker.CleanCount | app.py:32 | the cleaned list has one entry for every paragraph that is not all white space |
| Chunker.CleanAppend | app.py:32 | cleaning a concatenation of paragraph lists concatenates the cleaned lists, which keeps document order |
| Chunker.CleanPiecesStripped | app.py:32 | a kept paragraph is never empty and carries no white-space margin, and no more paragraphs are kept than given |
| Chunker.CleanEmptyIff | app.py:32 | nothing is kept exactly when every paragraph is blank |
| Chunker.FullTextEmptyIff | app.py:32 | the joined text is empty exactly when every paragraph is blank |
| Chunker.LinesOfFullText | app.py:32 | when kept paragraphs hold no line break, splitting the joined text at newlines recovers them, so no line of it is empty or has white-space margins |
| Relevance.ArgMax | app.py:43 | the index returned holds a score no smaller than any other, and every earlier score is strictly smaller (first maximum) |
| Relevance.FirstMaxUnique | app.py:43 | the first maximum is unique |
| Relevance.FindRelevantChunk | app.py:39-44 | no result exactly for an empty chunk list; otherwise the pair is the chunk at the first maximum together with that chunk's own score |
| Relevance.BestIsMaximal | app.py:42-44 | the returned chunk is one of the inputs, its score is one of the scores and is maximal, and it stays in [0, 1] when all scores do |
| AnswerGenerator.BuildRequest | app.py:48-56 | the payload; its settings and messages are given by `PromptCarriesInputs` below |
| AnswerGenerator.TruncateError | app.py:62 | the error text cut to its first two colon-separated segments; fully determined by `TruncateErrorSpec` below |
| AnswerGenerator.QueryAiModel | app.py:47-63 | `query_ai_model` with the endpoint as a parameter; its answer in each case is given by `AnswerOutcomes` below |
| AnswerGenerator.PromptCarriesInputs | app.py:48-56 | the payload has temperature 0.7, top-p 0.95, at most 800 tokens, the fixed system instruction and a user message with the chunk right after the fixed lead and the question at its end |
| AnswerGenerator.TruncateErrorSpec | app.py:62 | the truncated error is a prefix of the error text with at most one colon; the text is kept whole when it has at most one colon, and otherwise cut just before the second colon |
| AnswerGenerator.AnswerOutcomes | app.py:57-63 | a reply's content is the answer; a reply without content gives "No answer found."; a failed request gives the error lead followed by a prefix of the error text that is the whole text when it has at most one colon and otherwise ends just before the second colon |
| Escalation.LogLine | app.py:73 | the record written for one escalated question; its shape is given by `LogLineShape` and `LineCount` below |
| Escalation.LogLineShape | app.py:73 | a record starts with the e-mail lead and address and ends with the query lead, the question and a newline |
| Escalation.LineCount | app.py:73 | a record holds exactly one newline more than the address and the question together, so it is a single line when they are single-line |
| Escalation.QueryLog.Append | app.py:72-73 | a successful write appends exactly the one record and leaves all earlier writes in place, so the old file text is a prefix of the new; a failed open leaves the log unchanged |
| App.Decide | app.py:116-133 | the outcome of one submission; `Submit` is proved to produce it, and the `App` lemmas below say when each outcome happens |
| App.Submit | app.py:116-133 | the outcome is `Decide`'s; the log gains the one record exactly when the query is logged and the write succeeds, and is otherwise unchanged |
| App.ReadFailureShortCircuits | app.py:118-120 | an unreadable document ends the submission with its read error, whatever the question, address, scores or endpoint |
| App.UncaughtIffBlank | app.py:118-123 | the handler fails with an exception when every paragraph is blank, because nothing is left to score; in the model, where scoring and the reply never raise, this is the only way it fails |
| App.AnsweredIffSomeChunkRelevant | app.py:123-133 | the model is asked exactly when some chunk scores at least 0.2, and it is asked with the first best-scoring chunk |
| App.EscalationIffNoChunkRelevant | app.py:124-129 | when every score is below 0.2, a non-empty address means logged and an empty one means asked for an address; neither happens otherwise |
| App.SingleParagraphScenario | app.py:116-133 | a one-paragraph synopsis without margins and at most 500 characters is a single chunk, and a question that scores at least 0.2 on it gets the model's answer |

## Left out

- Reading the `.docx` file (`Document`) is an external library. The paragraph texts, or the reader's error message, are an input (`Chunker.Document`).
- TF-IDF vectorisation and cosine similarity are library calls on floating-point values. They are a function parameter that returns one real score per chunk (`App.Scorer`). The "empty vocabulary" error the vectoriser raises for a token-free corpus is not modelled.
- Relevance.ArgMax: NaN scores are not modelled. Cosine similarity does not produce them, and scores are reals here.
- The HTTPS POST and the reading of its JSON reply are external. The endpoint is a function from request to reply (`AnswerGenerator.Reply`). An empty `choices` list, which raises `IndexError` outside the `except`, and message content that is not a string are not modelled.
- The git configuration, commit and push after the log write, and the token lookup, are shell and network side effects. They do not change the log contents, and their errors are caught and printed.
- `log_unanswered_query` only wraps `log_and_commit_to_git`. That function already catches every exception, so the wrapper is modelled as the direct call in `App.Submit`.
- Secret loading, the Hugging Face login, console `print` calls and the Streamlit widgets are configuration and user-interface code. Only the outcome of a submission is modelled, not the banner text.
- Escalation.QueryLog.Append: a partially written record is not modelled. The write either succeeds whole or leaves the file unchanged.
- Concurrent submissions are not modelled. Each submission runs to completion before the next one starts.
