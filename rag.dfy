/**
 * `RAGProcessor` from rag_helper.py: it holds the chunks of one transcript and a faiss
 * IndexFlatL2 with one embedding row per chunk, as two parallel fields; it rebuilds both from a
 * transcript, saves them to and loads them from a pair of files named after one prefix, and
 * maps the positions a search returns back to chunk texts.
 *
 * The text splitter, the sentence encoder and the nearest-neighbour search are foreign code:
 * they are the fields of a `Backend` and are never looked into. What faiss does on `add`
 * (check the dimension, append the rows) is modelled, since the invariant depends on it.
 */
module Rag {
  import opened PyCore

  /** One float32 row of an embedding matrix. Only its length is ever inspected, against the index dimension. */
  type Vector = seq<real>

  /** A faiss IndexFlatL2: its dimension `d` and the rows added so far, in order (`ntotal` is `|rows|`). */
  datatype FlatIndex = FlatIndex(d: nat, rows: seq<Vector>)

  /** The foreign collaborators a processor is built with. */
  datatype Backend = Backend(
    /** `RecursiveCharacterTextSplitter(chunk_size=500, chunk_overlap=50, ...).split_text`. */
    splitText: string -> Result<seq<string>>,
    /** `SentenceTransformer("all-MiniLM-L6-v2").encode`: one row per text. */
    encode: seq<string> -> Result<seq<Vector>>,
    /** `get_sentence_embedding_dimension()`. */
    embeddingDim: nat,
    /** `index.search(queries, k)`, keeping only the first row of the returned labels. */
    search: (FlatIndex, seq<Vector>, int) -> Result<seq<int>>)

  /** The encoder's contract: it returns one row per input text, each of the model's dimension. */
  ghost predicate EncodesOneRowPerText(b: Backend)
  {
    forall texts :: b.encode(texts).Ok? ==>
      |b.encode(texts).value| == |texts| && forall v :: v in b.encode(texts).value ==> |v| == b.embeddingDim
  }

  /**
   * `index.add(np.array(xs).astype('float32'))`: `np.array` of no rows is a one-dimensional array,
   * whose shape does not unpack into `n, d`, so an empty batch raises; otherwise every row must have
   * the index's dimension, and the rows are appended in order.
   */
  function Add(ix: FlatIndex, xs: seq<Vector>): (r: Result<FlatIndex>)
    ensures r.Ok? <==> xs != [] && forall v :: v in xs ==> |v| == ix.d
    ensures r.Ok? ==> r.value.d == ix.d && r.value.rows == ix.rows + xs
  {
    if xs == [] then Raised("not enough values to unpack (expected 2, got 1)")
    else if forall v :: v in xs ==> |v| == ix.d then Ok(FlatIndex(ix.d, ix.rows + xs))
    else Raised("vector dimension does not match the index")
  }

  /** The two fields of a processor that its operations replace. */
  datatype State = State(chunks: seq<string>, index: Option<FlatIndex>)

  /** The parallel-array invariant: row `i` of the index belongs to `chunks[i]`, so the counts agree. */
  predicate Parallel(st: State)
  {
    st.index.Some? ==> |st.index.value.rows| == |st.chunks|
  }

  // ---- process_transcript ----

  /**
   * `process_transcript(text)` (lines 100-121): `chunks` is overwritten as soon as the splitter
   * returns, then the encoder runs, then `index` is overwritten by a fresh empty index, then the
   * rows are added to it. Any exception ends the call with False and leaves what was assigned so far.
   */
  function AfterProcessTranscript(b: Backend, st: State, text: string): (r: (State, bool))
    ensures r.1 ==> && b.splitText(text).Ok? && r.0.chunks == b.splitText(text).value
                    && b.encode(r.0.chunks).Ok? && r.0.index == Some(FlatIndex(b.embeddingDim, b.encode(r.0.chunks).value))
    ensures b.splitText(text).Raised? ==> r == (st, false)
  {
    match b.splitText(text)
    case Raised(_) => (st, false)
    case Ok(chunks) =>
      match b.encode(chunks)
      case Raised(_) => (st.(chunks := chunks), false)
      case Ok(embeddings) =>
        var empty := FlatIndex(b.embeddingDim, []);
        assert empty.rows + embeddings == embeddings;
        match Add(empty, embeddings)
        case Raised(_) => (State(chunks, Some(empty)), false)
        case Ok(built) => (State(chunks, Some(built)), true)
  }

  /**
   * With an encoder that keeps its contract, processing succeeds exactly when the splitter returns
   * at least one chunk and the encoder returns, and then the new state holds the splitter's chunks and a fresh index
   * with one row per chunk, whatever the processor held before: the parallel invariant holds.
   */
  lemma ProcessTranscriptReplacesBoth(b: Backend, st: State, text: string)
    requires EncodesOneRowPerText(b)
    ensures var (st', ok) := AfterProcessTranscript(b, st, text);
      && (ok <==> b.splitText(text).Ok? && b.splitText(text).value != [] && b.encode(b.splitText(text).value).Ok?)
      && (ok ==> Parallel(st') && st'.chunks == b.splitText(text).value
                 && st'.index.value.d == b.embeddingDim
                 && st'.index.value.rows == b.encode(st'.chunks).value)
  {
    if b.splitText(text).Ok? && b.splitText(text).value != [] && b.encode(b.splitText(text).value).Ok? {
      var chunks := b.splitText(text).value;
      var rows := b.encode(chunks).value;
      assert Add(FlatIndex(b.embeddingDim, []), rows).Ok?;
    }
  }

  /**
   * A failing encoder leaves the new chunks beside the old index: after a failed call the
   * parallel invariant no longer holds whenever the old index had a different row count.
   */
  lemma ProcessTranscriptFailureBreaksParallel(b: Backend, st: State, text: string)
    requires b.splitText(text).Ok? && b.encode(b.splitText(text).value).Raised?
    requires st.index.Some? && |st.index.value.rows| != |b.splitText(text).value|
    ensures var (st', ok) := AfterProcessTranscript(b, st, text);
      !ok && st'.chunks == b.splitText(text).value && st'.index == st.index && !Parallel(st')
  {
  }

  /**
   * A failing `add` (rows of the wrong width) leaves the new chunks beside a fresh empty index:
   * the invariant breaks whenever there was at least one chunk.
   */
  lemma ProcessTranscriptAddFailureLeavesEmptyIndex(b: Backend, st: State, text: string)
    requires b.splitText(text).Ok? && b.splitText(text).value != []
    requires b.encode(b.splitText(text).value).Ok?
    requires exists v :: v in b.encode(b.splitText(text).value).value && |v| != b.embeddingDim
    ensures var (st', ok) := AfterProcessTranscript(b, st, text);
      !ok && st'.index == Some(FlatIndex(b.embeddingDim, [])) && !Parallel(st')
  {
    var rows := b.encode(b.splitText(text).value).value;
    assert Add(FlatIndex(b.embeddingDim, []), rows).Raised?;
  }

  /**
   * A transcript the splitter turns into no chunks (empty, or only whitespace) is never indexed:
   * the call returns False, with no chunks and a fresh empty index.
   */
  lemma EmptyTranscriptFails(b: Backend, st: State, text: string)
    requires EncodesOneRowPerText(b)
    requires b.splitText(text) == Ok([])
    ensures var (st', ok) := AfterProcessTranscript(b, st, text);
      && !ok && st'.chunks == []
      && (b.encode([]).Ok? ==> st'.index == Some(FlatIndex(b.embeddingDim, [])))
      && (b.encode([]).Raised? ==> st'.index == st.index)
  {
    if b.encode([]).Ok? {
      assert |b.encode([]).value| == 0;
    }
  }

  // ---- save_index / load_index ----

  /** What a file holds: a faiss index, a JSON list of strings, or anything else. */
  datatype Blob = IndexFile(index: FlatIndex) | ChunksFile(chunks: seq<string>) | OtherFile

  /** Line 127 and line 145: the index file of a prefix. */
  function IndexPath(prefix: string): (r: string)
    ensures |r| == |prefix| + 6 && r[..|prefix|] == prefix && r[|prefix|..] == ".index"
  {
    prefix + ".index"
  }

  /** Line 131 and line 149: the chunk file of a prefix. */
  function ChunksPath(prefix: string): (r: string)
    ensures |r| == |prefix| + 12 && r[..|prefix|] == prefix && r[|prefix|..] == ".chunks.json"
  {
    prefix + ".chunks.json"
  }

  /**
   * An index file is never the chunk file of any prefix (they end in 'x' and 'n'), and each path
   * determines its prefix: distinct prefixes never share a file.
   */
  lemma PathsNeverCollide(p: string, q: string)
    ensures IndexPath(p) != ChunksPath(q)
    ensures IndexPath(p) == IndexPath(q) ==> p == q
    ensures ChunksPath(p) == ChunksPath(q) ==> p == q
  {
    var ip, cq := IndexPath(p), ChunksPath(q);
    assert ip[|ip| - 1] == 'x';
    assert cq[|cq| - 1] == 'n';
    if IndexPath(p) == IndexPath(q) {
      assert p == IndexPath(p)[..|p|];
    }
    if ChunksPath(p) == ChunksPath(q) {
      assert p == ChunksPath(p)[..|p|];
    }
  }

  /**
   * Writing `blob` to `path`. Opening the file for writing (`open(path, 'w')`, or the open inside
   * `faiss.write_index`) fails, and changes nothing, when the path is not writable; opening it
   * truncates it, so a write that fails after the open (a full disk, say) leaves a file that holds
   * neither the old content nor the new one.
   */
  function AfterWrite(files: map<string, Blob>, writable: set<string>, interrupted: set<string>, path: string, blob: Blob): (r: (map<string, Blob>, bool))
    ensures r.1 <==> path in writable && path !in interrupted
    ensures path !in writable ==> r.0 == files
    ensures path in writable ==> r.0 == files[path := if r.1 then blob else OtherFile]
  {
    if path !in writable then (files, false)
    else if path in interrupted then (files[path := OtherFile], false)
    else (files[path := blob], true)
  }

  /**
   * The file system the processor saves to and loads from: its files, the paths it lets a write
   * open, and the paths where a write, once opened, fails before it completes.
   */
  class FileSystem {
    var files: map<string, Blob>
    const writable: set<string>
    const interrupted: set<string>

    constructor(files: map<string, Blob>, writable: set<string>, interrupted: set<string>)
      ensures this.files == files && this.writable == writable && this.interrupted == interrupted
    {
      this.files := files;
      this.writable := writable;
      this.interrupted := interrupted;
    }

    /** Write `blob` to `path`: the files change as AfterWrite says. */
    method Write(path: string, blob: Blob) returns (ok: bool)
      modifies this
      ensures (files, ok) == AfterWrite(old(files), writable, interrupted, path, blob)
    {
      if path !in writable {
        return false;
      }
      if path in interrupted {
        files := files[path := OtherFile];
        return false;
      }
      files := files[path := blob];
      return true;
    }
  }

  /**
   * `save_index(prefix)` (lines 123-139): `faiss.write_index` raises when there is no index; the
   * index file is written before the chunk file, so a failure on the second leaves the first written.
   */
  function AfterSaveIndex(st: State, files: map<string, Blob>, writable: set<string>, interrupted: set<string>, prefix: string): (r: (map<string, Blob>, bool))
    ensures r.1 <==> && st.index.Some?
                     && IndexPath(prefix) in writable && IndexPath(prefix) !in interrupted
                     && ChunksPath(prefix) in writable && ChunksPath(prefix) !in interrupted
    ensures forall p :: p != IndexPath(prefix) && p != ChunksPath(prefix) ==> (p in r.0 <==> p in files) && (p in files ==> r.0[p] == files[p])
  {
    if st.index.None? then (files, false)
    else
      var (withIndex, indexWritten) := AfterWrite(files, writable, interrupted, IndexPath(prefix), IndexFile(st.index.value));
      if !indexWritten then (withIndex, false)
      else AfterWrite(withIndex, writable, interrupted, ChunksPath(prefix), ChunksFile(st.chunks))
  }

  /** `faiss.read_index(path)`: raises unless the path holds an index. */
  function ReadIndex(files: map<string, Blob>, path: string): (r: Result<FlatIndex>)
    ensures r.Ok? <==> path in files && files[path].IndexFile?
    ensures r.Ok? ==> files[path] == IndexFile(r.value)
  {
    if path in files && files[path].IndexFile? then Ok(files[path].index)
    else Raised("could not read index " + path)
  }

  /** `json.load(open(path))`: raises unless the path holds a JSON list of strings. */
  function ReadChunks(files: map<string, Blob>, path: string): (r: Result<seq<string>>)
    ensures r.Ok? <==> path in files && files[path].ChunksFile?
    ensures r.Ok? ==> files[path] == ChunksFile(r.value)
  {
    if path in files && files[path].ChunksFile? then Ok(files[path].chunks)
    else Raised("could not read chunks " + path)
  }

  /**
   * `load_index(prefix)` (lines 141-157): `index` is overwritten as soon as the index file is read,
   * before the chunk file is opened; a failure there returns False with the new index and the old chunks.
   */
  function AfterLoadIndex(st: State, files: map<string, Blob>, prefix: string): (r: (State, bool))
    ensures r.1 <==> ReadIndex(files, IndexPath(prefix)).Ok? && ReadChunks(files, ChunksPath(prefix)).Ok?
    ensures ReadIndex(files, IndexPath(prefix)).Raised? ==> r.0 == st
  {
    match ReadIndex(files, IndexPath(prefix))
    case Raised(_) => (st, false)
    case Ok(ix) =>
      match ReadChunks(files, ChunksPath(prefix))
      case Raised(_) => (st.(index := Some(ix)), false)
      case Ok(chunks) => (State(chunks, Some(ix)), true)
  }

  /** Saving and then loading under the same prefix restores the saved chunks and index exactly, into any processor. */
  lemma SaveThenLoadRestores(st: State, other: State, files: map<string, Blob>, writable: set<string>, interrupted: set<string>, prefix: string)
    requires AfterSaveIndex(st, files, writable, interrupted, prefix).1
    ensures AfterLoadIndex(other, AfterSaveIndex(st, files, writable, interrupted, prefix).0, prefix) == (st, true)
  {
    PathsNeverCollide(prefix, prefix);
    var saved := AfterSaveIndex(st, files, writable, interrupted, prefix).0;
    assert saved[IndexPath(prefix)] == IndexFile(st.index.value);
    assert saved[ChunksPath(prefix)] == ChunksFile(st.chunks);
  }

  /**
   * A save that can write the index file but not the chunk file returns False and leaves the new
   * index on disk beside whatever chunk file was there before.
   */
  lemma SaveCanTearThePair(st: State, files: map<string, Blob>, writable: set<string>, interrupted: set<string>, prefix: string)
    requires st.index.Some? && IndexPath(prefix) in writable && IndexPath(prefix) !in interrupted
    requires ChunksPath(prefix) !in writable
    ensures var (files', ok) := AfterSaveIndex(st, files, writable, interrupted, prefix);
      && !ok
      && files'[IndexPath(prefix)] == IndexFile(st.index.value)
      && (ChunksPath(prefix) in files' <==> ChunksPath(prefix) in files)
      && (ChunksPath(prefix) in files ==> files'[ChunksPath(prefix)] == files[ChunksPath(prefix)])
  {
    PathsNeverCollide(prefix, prefix);
  }

  /**
   * A save whose chunk-file write fails after the open returns False with the new index on disk
   * beside a chunk file that no longer holds any list of chunks: the previous chunk file is lost,
   * and a later load under the prefix fails after replacing the index.
   */
  lemma SaveCanEmptyTheChunkFile(st: State, other: State, files: map<string, Blob>, writable: set<string>, interrupted: set<string>, prefix: string)
    requires st.index.Some? && IndexPath(prefix) in writable && IndexPath(prefix) !in interrupted
    requires ChunksPath(prefix) in writable && ChunksPath(prefix) in interrupted
    ensures var (files', ok) := AfterSaveIndex(st, files, writable, interrupted, prefix);
      && !ok
      && files'[IndexPath(prefix)] == IndexFile(st.index.value)
      && files'[ChunksPath(prefix)] == OtherFile
      && AfterLoadIndex(other, files', prefix) == (State(other.chunks, st.index), false)
  {
    PathsNeverCollide(prefix, prefix);
    var files' := AfterSaveIndex(st, files, writable, interrupted, prefix).0;
    assert files'[IndexPath(prefix)] == IndexFile(st.index.value);
    LoadWithoutChunksKeepsNewIndex(other, files', prefix, st.index.value);
  }

  /**
   * A load that finds the index file but not a readable chunk file (missing, emptied, or holding
   * something else) returns False with the new index and the old chunks: the invariant breaks
   * whenever their counts differ.
   */
  lemma LoadWithoutChunksKeepsNewIndex(st: State, files: map<string, Blob>, prefix: string, ix: FlatIndex)
    requires IndexPath(prefix) in files && files[IndexPath(prefix)] == IndexFile(ix)
    requires ReadChunks(files, ChunksPath(prefix)).Raised?
    ensures AfterLoadIndex(st, files, prefix) == (State(st.chunks, Some(ix)), false)
    ensures |ix.rows| != |st.chunks| ==> !Parallel(AfterLoadIndex(st, files, prefix).0)
  {
  }

  // ---- retrieve_relevant_chunks ----

  /**
   * Line 172: `[chunks[idx] for idx in labels]`, with Python's indexing. It raises IndexError at
   * the first label outside `-|chunks|..|chunks|-1`; a negative label counts from the end.
   */
  function ChunksAt(chunks: seq<string>, labels: seq<int>): (r: Result<seq<string>>)
    ensures r.Ok? <==> forall i :: 0 <= i < |labels| ==> -|chunks| <= labels[i] < |chunks|
    ensures r.Ok? ==> |r.value| == |labels|
    ensures r.Ok? ==> forall i :: 0 <= i < |labels| ==> r.value[i] == chunks[Wrap(labels[i], |chunks|)]
    decreases |labels|
  {
    if labels == [] then Ok([])
    else
      match Index(chunks, labels[0])
      case Raised(m) => Raised(m)
      case Ok(first) =>
        match ChunksAt(chunks, labels[1..])
        case Raised(m) => Raised(m)
        case Ok(rest) => Ok([first] + rest)
  }

  /**
   * What an exact flat search over `ntotal` rows returns for `k`: `k` labels, the first
   * `min(k, ntotal)` distinct positions of stored rows, and -1 for each hit that does not exist.
   */
  predicate ExactSearchLabels(labels: seq<int>, ntotal: nat, k: int)
  {
    && |labels| == k
    && (forall i :: 0 <= i < |labels| ==> if i < ntotal then 0 <= labels[i] < ntotal else labels[i] == -1)
    && (forall i, j :: 0 <= i < j < |labels| && j < ntotal ==> labels[i] != labels[j])
  }

  /**
   * `retrieve_relevant_chunks(query, k)` (lines 159-173): with no index, or no chunks, the answer is
   * the empty list and nothing is searched; otherwise the query is encoded, the index searched and
   * the labels mapped to chunk texts. Exceptions are not caught here: they reach the caller.
   */
  function Retrieved(b: Backend, st: State, query: string, topK: int): (r: Result<seq<string>>)
    ensures st.index.None? || st.chunks == [] ==> r == Ok([])
  {
    if st.index.None? || st.chunks == [] then Ok([])
    else
      match b.encode([query])
      case Raised(m) => Raised(m)
      case Ok(queries) =>
        match b.search(st.index.value, queries, topK)
        case Raised(m) => Raised(m)
        case Ok(labels) => ChunksAt(st.chunks, labels)
  }

  /**
   * Under the invariant and an exact search, retrieval returns `k` texts and raises nothing; the
   * first `min(k, |chunks|)` are the chunks at the returned positions, in the search's order. The
   * search only knows the index's row count: the invariant is what makes its positions valid chunk
   * indices on line 172.
   */
  lemma RetrievedUnderExactSearch(b: Backend, st: State, query: string, topK: int)
    requires Parallel(st) && st.index.Some? && st.chunks != []
    requires b.encode([query]).Ok? && b.search(st.index.value, b.encode([query]).value, topK).Ok?
    requires ExactSearchLabels(b.search(st.index.value, b.encode([query]).value, topK).value, |st.index.value.rows|, topK)
    ensures var r, labels := Retrieved(b, st, query, topK), b.search(st.index.value, b.encode([query]).value, topK).value;
      && r.Ok? && |r.value| == topK
      && forall i :: 0 <= i < topK && i < |st.chunks| ==> r.value[i] == st.chunks[labels[i]]
  {
    var labels := b.search(st.index.value, b.encode([query]).value, topK).value;
    assert forall i :: 0 <= i < |labels| ==> -|st.chunks| <= labels[i] < |st.chunks|;
  }

  /**
   * Asking for more hits than there are chunks fills the tail with the LAST chunk: faiss reports
   * each missing hit as -1, and `chunks[-1]` is the last element rather than an error.
   */
  lemma MissingHitsRepeatTheLastChunk(chunks: seq<string>, labels: seq<int>, k: int)
    requires chunks != [] && k > |chunks|
    requires ExactSearchLabels(labels, |chunks|, k)
    ensures ChunksAt(chunks, labels).Ok?
    ensures forall i :: |chunks| <= i < k ==> ChunksAt(chunks, labels).value[i] == chunks[|chunks| - 1]
  {
  }

  /** The smallest case: one chunk, the default `top_k=3`, and the result is that chunk three times. */
  lemma OneChunkComesBackThreeTimes(c: string)
    ensures ExactSearchLabels([0, -1, -1], 1, 3)
    ensures ChunksAt([c], [0, -1, -1]) == Ok([c, c, c])
  {
    var r := ChunksAt([c], [0, -1, -1]);
    assert r.Ok? && |r.value| == 3;
    assert r.value[0] == c && r.value[1] == c && r.value[2] == c;
    assert r.value == [c, c, c];
  }

  /**
   * The retrieval as intended: a label of -1 means "no hit" and is skipped; any other label is read
   * as a position, and one outside the chunk list raises IndexError.
   */
  function FoundChunks(chunks: seq<string>, labels: seq<int>): (r: Result<seq<string>>)
    ensures r.Ok? <==> forall i :: 0 <= i < |labels| && labels[i] != -1 ==> 0 <= labels[i] < |chunks|
    ensures r.Ok? ==> |r.value| <= |labels|
    decreases |labels|
  {
    if labels == [] then Ok([])
    else
      var head := if labels[0] == -1 then Ok([])
                  else if 0 <= labels[0] < |chunks| then Ok([chunks[labels[0]]])
                  else Raised("list index out of range");
      match head
      case Raised(m) => Raised(m)
      case Ok(first) =>
        match FoundChunks(chunks, labels[1..])
        case Raised(m) => Raised(m)
        case Ok(rest) => Ok(first + rest)
  }

  /**
   * Under an exact search the intended retrieval returns `min(k, |chunks|)` texts: the chunks at the
   * returned positions, in order, so no chunk appears twice and no missing hit is made up.
   */
  lemma {:induction false} FoundChunksUnderExactSearch(chunks: seq<string>, labels: seq<int>, k: nat)
    requires ExactSearchLabels(labels, |chunks|, k)
    ensures FoundChunks(chunks, labels).Ok?
    ensures |FoundChunks(chunks, labels).value| == if k <= |chunks| then k else |chunks|
    ensures forall i :: 0 <= i < k && i < |chunks| ==> FoundChunks(chunks, labels).value[i] == chunks[labels[i]]
  {
    FoundChunksOfValidPrefix(chunks, labels, if k <= |chunks| then k else |chunks|);
  }

  lemma {:induction false} FoundChunksOfValidPrefix(chunks: seq<string>, labels: seq<int>, m: nat)
    requires m <= |labels|
    requires forall i :: 0 <= i < m ==> 0 <= labels[i] < |chunks|
    requires forall i :: m <= i < |labels| ==> labels[i] == -1
    ensures FoundChunks(chunks, labels).Ok?
    ensures |FoundChunks(chunks, labels).value| == m
    ensures forall i :: 0 <= i < m ==> FoundChunks(chunks, labels).value[i] == chunks[labels[i]]
    decreases |labels|
  {
    if labels != [] {
      FoundChunksOfValidPrefix(chunks, labels[1..], if m == 0 then 0 else m - 1);
    }
  }

  /** When the search finds as many hits as were asked for, the intended and the written retrieval agree. */
  lemma FoundChunksAgreeWhenAllHitsExist(chunks: seq<string>, labels: seq<int>, k: nat)
    requires k <= |chunks|
    requires ExactSearchLabels(labels, |chunks|, k)
    ensures FoundChunks(chunks, labels) == ChunksAt(chunks, labels)
  {
    FoundChunksUnderExactSearch(chunks, labels, k);
    assert forall i :: 0 <= i < |labels| ==> -|chunks| <= labels[i] < |chunks|;
    var found, written := FoundChunks(chunks, labels).value, ChunksAt(chunks, labels).value;
    assert |found| == |written|;
    assert forall i :: 0 <= i < |found| ==> found[i] == chunks[labels[i]] == written[i];
    assert found == written;
  }

  // ---- the processor object ----

  /** `RAGProcessor`: the backend it was built with and the two fields its methods overwrite. */
  class Processor {
    const backend: Backend
    var chunks: seq<string>
    var index: Option<FlatIndex>

    /** The fields as a value. */
    function Abs(): State
      reads this
    {
      State(chunks, index)
    }

    /** Lines 78-98: no index and no chunks yet. */
    constructor(backend: Backend)
      ensures this.backend == backend && chunks == [] && index == None
      ensures Parallel(Abs())
    {
      this.backend := backend;
      chunks := [];
      index := None;
    }

    /** `process_transcript`, field by field. */
    method ProcessTranscript(text: string) returns (ok: bool)
      modifies this
      ensures (Abs(), ok) == AfterProcessTranscript(backend, old(Abs()), text)
    {
      var split := backend.splitText(text);
      if split.Raised? {
        return false;
      }
      chunks := split.value;
      var embeddings := backend.encode(chunks);
      if embeddings.Raised? {
        return false;
      }
      var empty := FlatIndex(backend.embeddingDim, []);
      index := Some(empty);
      var added := Add(empty, embeddings.value);
      if added.Raised? {
        return false;
      }
      index := Some(added.value);
      return true;
    }

    /** `save_index`: the processor is unchanged; the file system changes as AfterSaveIndex says. */
    method SaveIndex(fs: FileSystem, prefix: string) returns (ok: bool)
      modifies fs
      ensures (fs.files, ok) == AfterSaveIndex(Abs(), old(fs.files), fs.writable, fs.interrupted, prefix)
    {
      if index.None? {
        return false;
      }
      ok := fs.Write(IndexPath(prefix), IndexFile(index.value));
      if !ok {
        return;
      }
      ok := fs.Write(ChunksPath(prefix), ChunksFile(chunks));
    }

    /** `load_index`, field by field. */
    method LoadIndex(fs: FileSystem, prefix: string) returns (ok: bool)
      modifies this
      ensures (Abs(), ok) == AfterLoadIndex(old(Abs()), fs.files, prefix)
    {
      var readIndex := ReadIndex(fs.files, IndexPath(prefix));
      if readIndex.Raised? {
        return false;
      }
      index := Some(readIndex.value);
      var readChunks := ReadChunks(fs.files, ChunksPath(prefix));
      if readChunks.Raised? {
        return false;
      }
      chunks := readChunks.value;
      return true;
    }

    /** `retrieve_relevant_chunks`: reads the fields and changes nothing. */
    method RetrieveRelevantChunks(query: string, topK: int) returns (r: Result<seq<string>>)
      ensures r == Retrieved(backend, Abs(), query, topK)
      ensures index.None? || chunks == [] ==> r == Ok([])
    {
      if index.None? || |chunks| == 0 {
        return Ok([]);
      }
      var queries := backend.encode([query]);
      if queries.Raised? {
        return Raised(queries.message);
      }
      var labels := backend.search(index.value, queries.value, topK);
      if labels.Raised? {
        return Raised(labels.message);
      }
      r := ChunksAt(chunks, labels.value);
    }
  }

  /**
   * The end-to-end round trip: a processor fed a transcript and saved under a prefix, then a
   * second processor loaded from that prefix, ends with the same chunks and index as the first,
   * one row per chunk.
   */
  method ProcessSaveLoad(b: Backend, text: string, fs: FileSystem, prefix: string) returns (first: Processor, second: Processor, ok: bool)
    requires EncodesOneRowPerText(b)
    modifies fs
    ensures fresh(first) && fresh(second)
    ensures ok ==> && second.Abs() == first.Abs() && Parallel(second.Abs())
                   && b.splitText(text).Ok? && second.chunks == b.splitText(text).value
  {
    first := new Processor(b);
    ok := first.ProcessTranscript(text);
    second := new Processor(b);
    if !ok {
      return;
    }
    ProcessTranscriptReplacesBoth(b, State([], None), text);
    ok := first.SaveIndex(fs, prefix);
    if !ok {
      return;
    }
    SaveThenLoadRestores(first.Abs(), second.Abs(), old(fs.files), fs.writable, fs.interrupted, prefix);
    ok := second.LoadIndex(fs, prefix);
  }
}
