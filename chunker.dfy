/** `load_and_chunk_document`: the paragraphs of the synopsis document are
    stripped, the blank ones dropped, the rest joined with newlines, and the
    joined text cut into consecutive windows of `chunk_size` characters. */
module Chunker {
  import opened PyText

  /** The chunk size the submit handler uses (the parameter's default). */
  const DefaultChunkSize: int := 500
  const ReadErrorPrefix: string := "Error reading document: "
  /** What Python's `range()` raises with for a zero step. */
  const ZeroStepMessage: string := "range() arg 3 must not be zero"

  /** What opening the document yields: its paragraph texts in order, or the
      message of the exception the document reader raised. */
  datatype Document = Paragraphs(texts: seq<string>) | Unreadable(cause: string)

  /** The function returns either the list of chunks or an error string. */
  datatype ChunkResult = Chunks(chunks: seq<string>) | ReadError(message: string)

  function Min(a: int, b: int): int {
    if a <= b then a else b
  }

  /** Python's `t[lo:hi]` for non-negative bounds: both bounds are clamped
      to the length, and a slice whose start passes its end is empty. */
  function Slice(t: string, lo: nat, hi: nat): string {
    var l := Min(lo, |t|);
    var h := Min(hi, |t|);
    if l <= h then t[l..h] else ""
  }

  /** Each paragraph stripped, the ones that strip to nothing left out. */
  function CleanParagraphs(paras: seq<string>): seq<string> {
    FlatMap(Kept, paras)
  }

  /** Applies `f` to every element in order and concatenates the results. */
  function FlatMap<A, B>(f: A -> seq<B>, xs: seq<A>): seq<B> {
    if xs == [] then [] else f(xs[0]) + FlatMap(f, xs[1..])
  }

  /** What one paragraph contributes: its stripped text, unless that is empty. */
  function Kept(x: string): seq<string> {
    var t := Strip(x);
    if t == "" then [] else [t]
  }

  /** The cleaned paragraphs joined with a newline between each two. */
  function FullText(paras: seq<string>): string {
    Join('\n', CleanParagraphs(paras))
  }

  /** `len(range(0, n, step))`: the start 0 is counted and the range steps
      on while it stays below `n`; a negative step from 0 never gets below
      a non-negative `n`. */
  function RangeCount(n: int, step: int): nat
    requires step != 0
    decreases if step > 0 then n else 0
  {
    if step < 0 || n <= 0 then 0 else 1 + RangeCount(n - step, step)
  }

  /** One slice of `k` characters for every start `0, k, 2k, ...` below the
      length of `t`; the i-th element is the window that starts at `i * k`. */
  function ChunkText(t: string, k: int): seq<string>
    requires k != 0
  {
    seq(RangeCount(|t|, k), i requires 0 <= i < RangeCount(|t|, k) => Slice(t, i * k, i * k + k))
  }

  /** `load_and_chunk_document(file_path, chunk_size)`. A document that
      cannot be read, and the zero step that `range` refuses, both end in
      the `except` clause and come back as an error string. */
  function LoadAndChunk(doc: Document, chunkSize: int): ChunkResult {
    match doc
    case Unreadable(cause) => ReadError(ReadErrorPrefix + cause)
    case Paragraphs(paras) =>
      if chunkSize == 0 then ReadError(ReadErrorPrefix + ZeroStepMessage)
      else Chunks(ChunkText(FullText(paras), chunkSize))
  }

  // ---------------------------------------------------------------------
  // Chunking

  lemma SliceShift(t: string, k: nat, lo: nat, hi: nat)
    requires k <= |t|
    ensures Slice(t[k..], lo, hi) == Slice(t, lo + k, hi + k)
  {
  }

  /** A text longer than one window is one full window followed by the
      chunks of the rest; a non-empty text no longer than a window is one
      chunk. */
  lemma ChunkUnfold(t: string, k: int)
    requires k > 0 && t != []
    ensures |t| <= k ==> ChunkText(t, k) == [t]
    ensures |t| > k ==> ChunkText(t, k) == [t[..k]] + ChunkText(t[k..], k)
  {
    var r := ChunkText(t, k);
    if |t| <= k {
      assert RangeCount(|t| - k, k) == 0;
      assert r[0] == Slice(t, 0, k) == t;
    } else {
      var r' := ChunkText(t[k..], k);
      assert r[0] == t[..k];
      forall i | 0 <= i < |r'|
        ensures r[i + 1] == r'[i]
      {
        assert (i + 1) * k == i * k + k;
        SliceShift(t, k, i * k, i * k + k);
      }
      assert r == [t[..k]] + r';
    }
  }

  /** Concatenating the chunks gives the text back: no gaps and no overlap. */
  lemma {:induction false} ChunkConcat(t: string, k: int)
    requires k > 0
    ensures Concat(ChunkText(t, k)) == t
    decreases |t|
  {
    if t == [] {
      assert ChunkText(t, k) == [];
    } else {
      ChunkUnfold(t, k);
      if |t| > k {
        ChunkConcat(t[k..], k);
        assert t == t[..k] + t[k..];
      }
    }
  }

  /** Every chunk is a non-empty window of at most `k` characters, all but
      the last exactly `k`, and there are ceil(|t| / k) of them (no chunk at
      all for the empty text). */
  lemma {:induction false} ChunkSizes(t: string, k: int)
    requires k > 0
    ensures var r := ChunkText(t, k);
      && (r == [] <==> t == [])
      && (r != [] ==> (|r| - 1) * k < |t| <= |r| * k)
      && (forall i :: 0 <= i < |r| ==> 0 < |r[i]| <= k)
      && (forall i :: 0 <= i < |r| - 1 ==> |r[i]| == k)
    decreases |t|
  {
    if t == [] {
      assert ChunkText(t, k) == [];
    } else {
      ChunkUnfold(t, k);
      if |t| > k {
        var r := ChunkText(t, k);
        var r' := ChunkText(t[k..], k);
        ChunkSizes(t[k..], k);
        assert (|r| - 1) * k == (|r'| - 1) * k + k;
        assert forall i :: 1 <= i < |r| ==> r[i] == r'[i - 1];
      }
    }
  }

  /** The i-th chunk is the text from `i * k` up to `i * k + k` or the end. */
  lemma ChunkAt(t: string, k: int, i: int)
    requires k > 0 && 0 <= i < |ChunkText(t, k)|
    ensures i * k < |t|
    ensures ChunkText(t, k)[i] == t[i * k .. Min(i * k + k, |t|)]
  {
    ChunkSizes(t, k);
    var r := ChunkText(t, k);
    assert i * k <= (|r| - 1) * k;
  }

  /** What `load_and_chunk_document` returns: the reader's error, the error
      of a zero step, no chunk for a negative step, and otherwise chunks
      that concatenate back to the cleaned text, none longer than the
      chunk size and none empty. */
  lemma LoadAndChunkSpec(doc: Document, chunkSize: int)
    ensures doc.Unreadable? ==> LoadAndChunk(doc, chunkSize) == ReadError(ReadErrorPrefix + doc.cause)
    ensures doc.Paragraphs? && chunkSize == 0 ==> LoadAndChunk(doc, chunkSize) == ReadError(ReadErrorPrefix + ZeroStepMessage)
    ensures doc.Paragraphs? && chunkSize < 0 ==> LoadAndChunk(doc, chunkSize) == Chunks([])
    ensures doc.Paragraphs? && chunkSize > 0 ==>
      var r := LoadAndChunk(doc, chunkSize);
      && r.Chunks?
      && Concat(r.chunks) == FullText(doc.texts)
      && forall i :: 0 <= i < |r.chunks| ==> 0 < |r.chunks[i]| <= chunkSize
  {
    if doc.Paragraphs? && chunkSize > 0 {
      ChunkConcat(FullText(doc.texts), chunkSize);
      ChunkSizes(FullText(doc.texts), chunkSize);
    }
  }

  // ---------------------------------------------------------------------
  // Cleaning and joining

  lemma CleanCons(x: string, rest: seq<string>)
    ensures CleanParagraphs([x] + rest) == Kept(x) + CleanParagraphs(rest)
  {
    assert ([x] + rest)[1..] == rest;
  }

  /** The number of paragraphs that are not all white space. */
  function NonBlank(paras: seq<string>): nat {
    if paras == [] then 0
    else (if AllSpace(paras[0]) then 0 else 1) + NonBlank(paras[1..])
  }

  /** The cleaned list holds exactly the non-empty stripped paragraphs ... */
  lemma {:induction false} CleanMembers(paras: seq<string>, x: string)
    ensures x in CleanParagraphs(paras) <==> exists i :: 0 <= i < |paras| && x == Strip(paras[i]) && x != ""
  {
    if paras != [] {
      var rest := paras[1..];
      CleanMembers(rest, x);
      if exists i :: 0 <= i < |paras| && x == Strip(paras[i]) && x != "" {
        var i :| 0 <= i < |paras| && x == Strip(paras[i]) && x != "";
        if i > 0 {
          assert paras[i] == rest[i - 1];
        }
      }
      if x in CleanParagraphs(rest) {
        var i :| 0 <= i < |rest| && x == Strip(rest[i]) && x != "";
        assert paras[i + 1] == rest[i];
      }
    }
  }

  /** ... one for every paragraph that is not blank. */
  lemma {:induction false} CleanCount(paras: seq<string>)
    ensures |CleanParagraphs(paras)| == NonBlank(paras)
  {
    if paras != [] {
      CleanCount(paras[1..]);
      StripEmptyIff(paras[0]);
    }
  }

  /** Cleaning distributes over the concatenation of paragraph lists, so
      the cleaned paragraphs keep their document order. */
  lemma CleanAppend(p: seq<string>, q: seq<string>)
    ensures CleanParagraphs(p + q) == CleanParagraphs(p) + CleanParagraphs(q)
  {
    FlatMapAppend(Kept, p, q);
  }

  lemma {:induction false} FlatMapAppend<A, B>(f: A -> seq<B>, p: seq<A>, q: seq<A>)
    ensures FlatMap(f, p + q) == FlatMap(f, p) + FlatMap(f, q)
  {
    if p == [] {
      assert p + q == q;
    } else {
      FlatMapAppend(f, p[1..], q);
      assert (p + q)[0] == p[0] && (p + q)[1..] == p[1..] + q;
    }
  }

  /** A cleaned paragraph is never empty and has no white-space margins. */
  lemma {:induction false} CleanPiecesStripped(paras: seq<string>)
    ensures |CleanParagraphs(paras)| <= |paras|
    ensures forall x :: x in CleanParagraphs(paras) ==> x != "" && Strip(x) == x
  {
    if paras != [] {
      CleanPiecesStripped(paras[1..]);
      StripIdempotent(paras[0]);
    }
  }

  /** The joined text is empty exactly when every paragraph is blank. */
  lemma {:induction false} FullTextEmptyIff(paras: seq<string>)
    ensures FullText(paras) == "" <==> forall i :: 0 <= i < |paras| ==> AllSpace(paras[i])
  {
    CleanPiecesStripped(paras);
    CleanEmptyIff(paras);
    var c := CleanParagraphs(paras);
    if c != [] {
      JoinLength('\n', c);
      assert c[0] in c;
    }
  }

  lemma {:induction false} CleanEmptyIff(paras: seq<string>)
    ensures CleanParagraphs(paras) == [] <==> forall i :: 0 <= i < |paras| ==> AllSpace(paras[i])
  {
    if paras != [] {
      CleanEmptyIff(paras[1..]);
      StripEmptyIff(paras[0]);
      assert forall i :: 1 <= i < |paras| ==> paras[i] == paras[1..][i - 1];
    }
  }

  /** When no kept paragraph holds a line break of its own, splitting the
      joined text at newlines gives back exactly the cleaned paragraphs, so
      no line of the joined text is empty or starts or ends with white space. */
  lemma LinesOfFullText(paras: seq<string>)
    requires forall x :: x in CleanParagraphs(paras) ==> '\n' !in x
    requires CleanParagraphs(paras) != []
    ensures Split(FullText(paras), '\n') == CleanParagraphs(paras)
    ensures forall x :: x in Split(FullText(paras), '\n') ==> x != "" && Strip(x) == x
  {
    SplitJoin(CleanParagraphs(paras), '\n');
    CleanPiecesStripped(paras);
  }
}
