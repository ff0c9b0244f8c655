# YouTube content assistant: retrieval core and file-name sanitiser, in Dafny

This project models the core of a local question-answering assistant for YouTube videos:

- **`RAGProcessor`** (rag_helper.py) splits a transcript into chunks and embeds each chunk. It
  keeps the chunks and a faiss `IndexFlatL2` of their embeddings as two parallel fields. It saves
  the pair to `<prefix>.index` and `<prefix>.chunks.json` and loads it back. It answers a query with
  the chunks at the positions a nearest-neighbour search returns.
- **`LocalLLM`** (rag_helper.py) loads one llama.cpp model from a directory. It builds a fixed
  prompt from a question and the retrieved chunks. It returns the model's text with the
  surrounding whitespace stripped, or an error string.
- **`sanitize_filename`** (youtube_downloader.py) turns a video title into a file name. It replaces
  the characters file systems reject, normalises to NFKD and drops non-ASCII. It truncates a name
  over 100 characters, keeping the text after the last '.'. An extension of 100 or more characters
  leaves the result over 100 (see "## Findings"). An empty result falls back to `youtube_audio`.

Files:

- `pycore.dfy` (module `PyCore`): the Python built-ins the code relies on. An exception is a
  `Result` value. It also covers list indexing with negative indices, `s[:n]`, `str.strip`,
  `str.join` and `posixpath.join`.
- `sanitize.dfy` (module `Sanitize`): `sanitize_filename` as a composition of functions. The NFKD
  normalisation is a parameter.
- `rag.dfy` (module `Rag`):
  - The processor is a `class` whose `chunks` and `index` fields the methods reassign. The file
    system is a `class` holding a map of files.
  - Each method is proved equal to a pure transition function (`AfterProcessTranscript`,
    `AfterSaveIndex`, `AfterLoadIndex`, `Retrieved`), and the lemmas are about those functions.
  - The splitter, the encoder and the search are fields of a `Backend` value.
- `answer.dfy` (module `Answer`): `LocalLLM` as a `class` whose `llm` field `LoadModel` reassigns.
  The file probe, the model constructor and the completion call are fields of an `LlmBackend` value.

The code lacks some checks one might expect; the model follows the code:

- `load_index` does not check that the chunk count matches the index's row count.
- `load_index` assigns the new index before it opens the chunk file. A missing chunk file therefore
  leaves the new index beside the old chunks instead of leaving the processor unchanged (see
  `Rag.LoadWithoutChunksKeepsNewIndex`).
- `save_index` writes the two files in place, one after the other. It uses no temporary file and
  no rename (see `Rag.SaveCanTearThePair`). Opening a file for writing truncates it, so a write
  that fails part-way leaves a file that reads as neither an index nor a chunk list (see
  `Rag.SaveCanEmptyTheChunkFile`).
- `retrieve_relevant_chunks` does not reject `top_k <= 0`. The search decides what happens.
- `retrieve_relevant_chunks` returns an empty list, not an error, when nothing is indexed.

## Model

| member | source | states |
|---|---|---|
| PyCore.Index | rag_helper.py:172 | `chunks[idx]` succeeds exactly for `-len <= idx < len`, and a negative index counts from the end; anything else raises IndexError |
| PyCore.SliceTo | youtube_downloader.py:43-45 | `s[:n]` is a prefix of `s`; its length is `n` clamped to `0..len(s)`, and a negative `n` counts from the end |
| PyCore.Strip | rag_helper.py:234 | `strip()` never lengthens the text, and the result neither starts nor ends with whitespace |
| PyCore.StripKeepsTheInnerText | rag_helper.py:234 | for whitespace, then a text not starting or ending in whitespace, then whitespace, `strip()` returns exactly that text |
| PyCore.StripIdempotent | rag_helper.py:234 | stripping twice gives the same as stripping once |
| PyCore.Join | rag_helper.py:213 | `sep.join([])` is empty and `sep.join([x])` is `x`; the general shape is stated by the two lemmas below |
| PyCore.JoinFirst | rag_helper.py:213 | `sep.join(xs)` is the first element, the separator, then the join of the rest |
| PyCore.JoinLength | rag_helper.py:213 | the joined text's length is the parts' total plus one separator per neighbouring pair |
| PyCore.PathJoin | rag_helper.py:186 | `os.path.join(dir, name)` ends with `name`; an absolute `name` replaces `dir`; otherwise it extends `dir`, with a `/` right before `name` when `dir` is non-empty |
| Sanitize.ReplaceForbidden | youtube_downloader.py:23-29 | the three passes keep the length, turn each of `\/*?:"<>|`, apostrophe and space into `_`, change nothing else, and leave none of them |
| Sanitize.AsciiOnly | youtube_downloader.py:35 | the result is ASCII, no longer than the input, and free of forbidden characters when the input is; an ASCII input is unchanged |
| Sanitize.AsciiOnlyCounts | youtube_downloader.py:35 | filtering keeps exactly the ASCII characters, each with its multiplicity in the input, and no other character |
| Sanitize.AsciiOnlyAppend | youtube_downloader.py:35 | filtering keeps the order of the characters: filtering `a + b` is filtering `a` followed by filtering `b` |
| Sanitize.AsciiOnlyOfOne | youtube_downloader.py:35 | a single character is kept exactly when it is ASCII |
| Sanitize.LastDot | youtube_downloader.py:41-42 | `rsplit('.', 1)` splits exactly when there is a '.', and at the last one |
| Sanitize.Truncate | youtube_downloader.py:37-45 | a name of at most 100 characters is unchanged; a non-empty name stays non-empty; ASCII and the absence of forbidden characters are preserved |
| Sanitize.TruncateKeepsExtension | youtube_downloader.py:41-43 | a long name with a '.' keeps a prefix of its base, the '.', and the whole extension; it is exactly 100 long when the extension is shorter than 100, and longer than 100 otherwise |
| Sanitize.CutKeepsExtension | youtube_downloader.py:43 | line 43's expression for a base and an extension together over 100 ends with the '.' and the extension after a prefix of the base; it is exactly 100 long when the extension is shorter than 100, and longer than 100 otherwise |
| Sanitize.TruncateWithoutDot | youtube_downloader.py:44-45 | a long name without '.' keeps its first 100 characters |
| Sanitize.Filtered | youtube_downloader.py:23-35 | the string the cap receives is ASCII, no longer than the normalised text, and free of forbidden characters whenever the normalised text is |
| Sanitize.SanitizeFilename | youtube_downloader.py:12-51 | the result is never empty and always ASCII |
| Sanitize.FallbackOnlyForEmpty | youtube_downloader.py:47-49 | the result is `youtube_audio` exactly when filtering left nothing, or left `youtube_audio` itself |
| Sanitize.ShortNameIsNotTruncated | youtube_downloader.py:37-39 | a filtered name of 1 to 100 characters is returned as it is |
| Sanitize.NoForbiddenWhenNormalisationAddsNone | youtube_downloader.py:23-35 | the result contains none of the replaced characters whenever NFKD adds none back |
| Sanitize.SafeNameUnchanged | youtube_downloader.py:12-51 | a non-empty ASCII name of at most 100 characters without forbidden characters comes back unchanged, given that NFKD fixes ASCII |
| Sanitize.LongExtensionBreaksCap | youtube_downloader.py:43 | `"a." + 100 x's` comes out as `"." + 100 x's`: 101 characters, over the cap |
| Sanitize.NormalisationReintroducesSlash | youtube_downloader.py:23-32 | U+FF0F, which NFKD maps to `/`, comes out as `/` |
| Sanitize.NormalisationReintroducesSpace | youtube_downloader.py:26-32 | `a`, U+00A0, `b` comes out as `a b`, with the space the code replaced |
| Sanitize.TruncateCapped | youtube_downloader.py:37-45 | the corrected cap: never longer than 100, exactly 100 for a long name, unchanged for a short one, ASCII and forbidden-free preserved |
| Sanitize.TruncateCappedAgreesWhenExtensionFits | youtube_downloader.py:37-45 | the corrected cap agrees with the code whenever the extension is shorter than 100 or there is no '.' |
| Sanitize.SanitizeFilenameFixed | youtube_downloader.py:12-51 | the corrected order (normalise, drop non-ASCII, replace, cap): non-empty, ASCII, at most 100 characters, free of forbidden characters whatever NFKD does |
| Sanitize.FixedAgreesOnSafeNames | youtube_downloader.py:12-51 | on an already safe name the corrected and the written function both return the name |
| Rag.Add | rag_helper.py:113-114 | `index.add(np.array(rows))` succeeds exactly when there is at least one row and every row has the index's dimension, and then appends the rows in order; an empty batch has no second axis and raises |
| Rag.AfterProcessTranscript | rag_helper.py:100-121 | success implies the chunks are the splitter's output and the index is a fresh one holding exactly the encoder's rows; a failing splitter changes nothing |
| Rag.ProcessTranscriptReplacesBoth | rag_helper.py:100-121 | with an encoder that returns one row per text, processing succeeds exactly when the splitter returns at least one chunk and the encoder returns, and then chunks and rows are parallel, whatever was there before |
| Rag.ProcessTranscriptFailureBreaksParallel | rag_helper.py:104-109 | an encoder failure returns False with the new chunks beside the old index, so their counts no longer match |
| Rag.ProcessTranscriptAddFailureLeavesEmptyIndex | rag_helper.py:113-114 | a rejected `add` returns False with the new chunks beside a fresh empty index |
| Rag.EmptyTranscriptFails | rag_helper.py:104-121 | a transcript split into no chunks is never indexed: False, no chunks, and a fresh empty index (or the old one if the encoder raised) |
| Rag.IndexPath | rag_helper.py:127 | the index file is the prefix followed by `.index` |
| Rag.ChunksPath | rag_helper.py:131 | the chunk file is the prefix followed by `.chunks.json` |
| Rag.PathsNeverCollide | rag_helper.py:127-131 | an index path is never a chunk path, and each path determines its prefix |
| Rag.FileSystem.Write | rag_helper.py:128-133 | the files and the result are those of `AfterWrite` on the old files |
| Rag.AfterWrite | rag_helper.py:128-133 | a write succeeds exactly on a path that can be opened and is not interrupted, and then replaces that one file; a path that cannot be opened changes nothing; an interrupted write leaves that file as `OtherFile`, readable neither as an index nor as a chunk list |
| Rag.ReadIndex | rag_helper.py:146 | `faiss.read_index` succeeds exactly when the file holds an index, and returns that index |
| Rag.ReadChunks | rag_helper.py:150-151 | `json.load` succeeds exactly when the file holds a list of strings, and returns that list |
| Rag.AfterSaveIndex | rag_helper.py:123-139 | save succeeds exactly when there is an index and both writes can be opened and are not interrupted; no other file changes |
| Rag.AfterLoadIndex | rag_helper.py:141-157 | load succeeds exactly when the index file holds an index and the chunk file holds a list of strings; an unreadable index file changes nothing |
| Rag.SaveThenLoadRestores | rag_helper.py:123-157 | saving and then loading under one prefix restores exactly the saved chunks and index, into any processor |
| Rag.SaveCanTearThePair | rag_helper.py:126-133 | a save that can write only the index file returns False with the new index on disk beside the previous chunk file |
| Rag.SaveCanEmptyTheChunkFile | rag_helper.py:126-151 | a save whose chunk write is interrupted returns False with the new index on disk and the chunk file emptied; a later load then returns False with the new index beside the loader's old chunks |
| Rag.LoadWithoutChunksKeepsNewIndex | rag_helper.py:144-151 | a load without a readable chunk file returns False having replaced the index and kept the old chunks |
| Rag.ChunksAt | rag_helper.py:172 | the comprehension succeeds exactly when every label is a valid Python index, and then yields, for each label in order, the chunk that label denotes |
| Rag.Retrieved | rag_helper.py:159-173 | with no index or no chunks the answer is the empty list |
| Rag.RetrievedUnderExactSearch | rag_helper.py:159-173 | with parallel chunks and an exact search over the index's rows, retrieval raises nothing and returns `top_k` texts, and the first `min(top_k, n)` are the chunks at the returned positions: the invariant is what makes the search's positions valid chunk indices |
| Rag.MissingHitsRepeatTheLastChunk | rag_helper.py:169-172 | when `top_k` exceeds the chunk count, every missing hit (label -1) comes back as the last chunk |
| Rag.OneChunkComesBackThreeTimes | rag_helper.py:159-172 | one chunk and the default `top_k=3` give that chunk three times |
| Rag.FoundChunks | rag_helper.py:172 | the corrected comprehension skips -1 and succeeds exactly when every other label is a stored position |
| Rag.FoundChunksUnderExactSearch | rag_helper.py:169-172 | with an exact search the corrected retrieval returns `min(top_k, n)` texts, the chunks at the returned positions in order |
| Rag.FoundChunksAgreeWhenAllHitsExist | rag_helper.py:169-172 | when `top_k` is at most the chunk count, the corrected and the written retrieval agree |
| Rag.Processor.constructor | rag_helper.py:78-98 | a new processor has no chunks and no index |
| Rag.Processor.ProcessTranscript | rag_helper.py:100-121 | the new fields and the result are those of `AfterProcessTranscript` on the old fields |
| Rag.Processor.SaveIndex | rag_helper.py:123-139 | the files and the result are those of `AfterSaveIndex`; the processor is unchanged |
| Rag.Processor.LoadIndex | rag_helper.py:141-157 | the new fields and the result are those of `AfterLoadIndex` on the old fields |
| Rag.Processor.RetrieveRelevantChunks | rag_helper.py:159-173 | the result is `Retrieved` on the fields, and the empty list when nothing is indexed; nothing changes |
| Rag.ProcessSaveLoad | rag_helper.py:100-157 | a processor fed a transcript and saved, then a fresh processor loaded from the same prefix: on success both hold the same chunks and index, parallel, with the splitter's chunks |
| Answer.BuildPrompt | rag_helper.py:213-222 | the prompt starts with the fixed header, holds the chunks joined by blank lines right after it, then exactly the instruction line, and ends with the question then `Answer:` |
| Answer.PromptDeterminesItsParts | rag_helper.py:213-222 | equal prompts for questions of equal length carry the same question and the same joined context |
| Answer.PromptContextIsOrderedChunks | rag_helper.py:213-222 | the context section is the first chunk, a blank line, then the rest in order |
| Answer.Reply | rag_helper.py:211-239 | a completed text comes back stripped, never longer and with no whitespace at either end; an exception comes back as exactly `Error generating response: ` followed by its message |
| Answer.ReplyIsTheStrippedCompletion | rag_helper.py:227-235 | a completion that is whitespace, a core and whitespace is answered with exactly the core |
| Answer.SentinelsAreAmbiguous | rag_helper.py:207-235 | a loaded model whose text is the not-loaded message makes the answer identical to the unloaded one |
| Answer.LocalLLM.constructor | rag_helper.py:176-179 | a new LocalLLM has its model directory and no model |
| Answer.LocalLLM.LoadModel | rag_helper.py:181-203 | loading succeeds exactly when `os.path.join(dir, name)` exists and the constructor does not raise; success installs that model with a 2048-token context, batch 512 and every GPU layer; failure changes nothing |
| Answer.LocalLLM.GenerateResponse | rag_helper.py:205-239 | without a model the fixed not-loaded message; with one, the reply to the prompt built from the question and chunks |
| Answer.LoadDefaultModel | rag_helper.py:176-203 | `LocalLLM()` then `load_model()` with their defaults look for `./models/llama-2-7b-chat.Q4_K_M.gguf`, and the fresh instance holds that model exactly when loading succeeds |
| Answer.AskBeforeLoading | rag_helper.py:205-209 | asking a fresh LocalLLM gives the not-loaded message whatever the backend would say |

## Left out

- The text splitter (`RecursiveCharacterTextSplitter` with chunk size 500, overlap 50) is a function parameter, so its chunking is not modelled.
- The sentence encoder is a function parameter. Only its promise of one row per text, of the model's dimension, is used, as a precondition.
- Embedding values are `real`, not float32. L2 distances and their ordering are not modelled: the search is a function parameter, and `ExactSearchLabels` states what an exact flat search returns.
- `Rag.Processor` has no field for the model directory or the splitter settings. Only the encoder's dimension and the three backend calls matter to the operations.
- The faiss and JSON file formats are abstracted to a `Blob` per path. A JSON file holding something other than a list of strings reads as unreadable.
- `Rag.Backend.search` stands for `index.search` followed by `indices[0]`: it returns only the first row of labels, which is the only row for a query of one text. `Rag.ChunksAt` receives that flat list.
- Rag.Add: the failure on an empty batch follows numpy (`np.array([])` is one-dimensional) and faiss's Python `add` (which unpacks `n, d = x.shape`). Neither library is part of this model.
- The `print` logging throughout is not modelled.
- PyCore.PathJoin: paths follow POSIX (`posixpath.join`, with `/` as the only separator). On Windows `os.path.join` uses `\`, and the default model would be looked up at `./models\llama-2-7b-chat.Q4_K_M.gguf`.
- Rag.FileSystem.Write: which writes fail part-way (`interrupted`) is fixed when the file system is built, and such a write leaves one abstract `OtherFile` (an empty or partial file), not the bytes written before the failure.
- Exceptions are values of `PyCore.Result`. The model does not distinguish exception types, only that one was raised and its message.
- Dafny's `char` has no lone surrogates, so file names containing them are not covered.
- `Answer.LlmBackend.complete` stands for the llama.cpp call. Token counting, the stop sequences' effect and sampling are not modelled; the stop sequences are passed through unchanged.
- `Answer.LocalLLM.LoadModel`: a failed import of llama_cpp and a failing `Llama(...)` are one oracle, `initError`. Both return False.
- `install_packages`, `download_model_if_needed` and the module's `__main__` test code are not modelled. They install packages and fetch files.
- The rest of youtube_downloader.py is not part of this model: installing yt-dlp and downloading audio are process and network I/O.
- app.py and audio_transcriber.py are not part of this model. Only their calling pattern appears, in `Rag.ProcessSaveLoad`.
- Sanitize.SanitizeFilename: NFKD itself is not defined. Properties that depend on it take it as a requirement (`FixesAscii`, or its value on one string).

## Findings

| source | as written | input that shows it | evidently intended | confidence | as-written member | corrected member |
|---|---|---|---|---|---|---|
| youtube_downloader.py:43 | `parts[0][:max_length - len(parts[1]) - 1]` with an extension of 100 or more characters gives a negative bound, which Python counts from the end instead of rejecting | `"a." + "x" * 100` gives a 101-character name | the result never exceeds 100 characters | not executed | Sanitize.LongExtensionBreaksCap | Sanitize.TruncateCapped |
| youtube_downloader.py:23-32 | the forbidden characters are replaced before NFKD, and NFKD can produce them again | U+FF0F (fullwidth solidus) gives `/`; `a`, U+00A0, `b` gives `a b` | the result contains none of the replaced characters | not executed | Sanitize.NormalisationReintroducesSlash | Sanitize.SanitizeFilenameFixed |
| rag_helper.py:169-172 | faiss reports each missing hit as label -1, and `self.chunks[-1]` returns the last chunk | one chunk and `top_k=3` give that chunk three times | missing hits are skipped, so no chunk is made up or repeated | not executed | Rag.MissingHitsRepeatTheLastChunk | Rag.FoundChunksUnderExactSearch |
