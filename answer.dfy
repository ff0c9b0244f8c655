/**
 * `LocalLLM` from rag_helper.py: a holder for at most one loaded llama.cpp model, which turns a
 * question and the retrieved chunks into a fixed prompt and returns the model's stripped text.
 *
 * The file system probe, the model constructor and the completion call are foreign code: they
 * are the fields of an `LlmBackend`.
 */
module Answer {
  import opened PyCore

  /** The arguments `Llama(...)` is built with (lines 192-197). */
  datatype LlamaConfig = LlamaConfig(modelPath: string, nCtx: int, nBatch: int, nGpuLayers: int)

  /** The configuration for a model file: a 2048-token context, batches of 512, every layer offloaded. */
  function ConfigFor(path: string): LlamaConfig
  {
    LlamaConfig(path, 2048, 512, -1)
  }

  /** The directory `LocalLLM()` defaults to (line 176). */
  const DefaultModelDir: string := "./models"

  /** The model file `load_model()` defaults to (line 181). */
  const DefaultModelName: string := "llama-2-7b-chat.Q4_K_M.gguf"

  /** The stop sequences every completion is asked for with (line 230). */
  const StopSequences: seq<string> := ["Human:", "\n\n\n"]

  /** The answer when no model is loaded (line 209). */
  const NotLoadedMessage: string := "Error: " + "LLM not loaded. Please load the model first."

  /** What precedes the exception message when generation raises (line 239). */
  const FailurePrefix: string := "Error generating response: "

  /** The text before the context in the prompt (line 215 and the blank line after it). */
  const PromptHeader: string := "Below is a section of a transcript from a video:\n\n"

  /** The text between the context and the question (lines 218-219). */
  const PromptInstruction: string := "\n\nBased on the above transcript, please answer the following question:\n"

  /** The text after the question (lines 221-222). */
  const PromptTrailer: string := "\n\nAnswer:"

  /** The separator between context chunks (line 213). */
  const ChunkSeparator: string := "\n\n"

  /** The foreign collaborators of a LocalLLM. */
  datatype LlmBackend = LlmBackend(
    /** `os.path.exists(path)`. */
    fileExists: string -> bool,
    /** The exception, if any, that importing llama_cpp or calling `Llama(...)` raises for a configuration. */
    initError: LlamaConfig -> Option<string>,
    /** `llm(prompt, max_tokens=..., stop=..., echo=False)["choices"][0]["text"]`. */
    complete: (LlamaConfig, string, int, seq<string>) -> Result<string>)

  /**
   * Lines 213-222: the fixed header, the chunks joined by a blank line, the instruction line, the
   * question, and "Answer:" at the end.
   */
  function BuildPrompt(query: string, contextChunks: seq<string>): (p: string)
    ensures PromptHeader <= p
    ensures |p| == |PromptHeader| + |Join(ChunkSeparator, contextChunks)| + |PromptInstruction| + |query| + |PromptTrailer|
    ensures p[|PromptHeader|..|PromptHeader| + |Join(ChunkSeparator, contextChunks)|] == Join(ChunkSeparator, contextChunks)
    ensures p[|PromptHeader| + |Join(ChunkSeparator, contextChunks)|..|p| - |query| - |PromptTrailer|] == PromptInstruction
    ensures p[|p| - |PromptTrailer| - |query|..] == query + PromptTrailer
  {
    var context := Join(ChunkSeparator, contextChunks);
    FiveParts(PromptHeader, context, PromptInstruction, query, PromptTrailer);
    PromptHeader + context + PromptInstruction + query + PromptTrailer
  }

  /**
   * The prompt determines its parts: two prompts that are equal, for questions of the same length,
   * carry the same question and the same context.
   */
  lemma PromptDeterminesItsParts(q1: string, cs1: seq<string>, q2: string, cs2: seq<string>)
    requires |q1| == |q2|
    requires BuildPrompt(q1, cs1) == BuildPrompt(q2, cs2)
    ensures q1 == q2
    ensures Join(ChunkSeparator, cs1) == Join(ChunkSeparator, cs2)
  {
    FivePartsDetermineTheMiddle(PromptHeader, Join(ChunkSeparator, cs1), Join(ChunkSeparator, cs2),
      PromptInstruction, q1, q2, PromptTrailer);
  }

  /** With the outer parts fixed and the fourth parts of equal length, `a + b + c + d + e` determines `b` and `d`. */
  lemma FivePartsDetermineTheMiddle(a: string, b1: string, b2: string, c: string, d1: string, d2: string, e: string)
    requires |d1| == |d2|
    requires a + b1 + c + d1 + e == a + b2 + c + d2 + e
    ensures b1 == b2 && d1 == d2
  {
    FiveParts(a, b1, c, d1, e);
    FiveParts(a, b2, c, d2, e);
    SuffixDeterminesPrefix(d1, d2, e);
  }

  /** Two equal strings that end with the same text carry equal texts before it, when those have the same length. */
  lemma SuffixDeterminesPrefix(x: string, y: string, t: string)
    requires |x| == |y| && x + t == y + t
    ensures x == y
  {
    assert x == (x + t)[..|x|];
    assert y == (y + t)[..|y|];
  }

  /**
   * The context section is the chunks in their order, one blank line between each pair: the first
   * chunk, the separator, and the join of the others.
   */
  lemma PromptContextIsOrderedChunks(query: string, contextChunks: seq<string>)
    requires |contextChunks| >= 2
    ensures var p, context := BuildPrompt(query, contextChunks), Join(ChunkSeparator, contextChunks);
      p[|PromptHeader|..|PromptHeader| + |context|] == contextChunks[0] + ChunkSeparator + Join(ChunkSeparator, contextChunks[1..])
  {
    JoinFirst(ChunkSeparator, contextChunks);
  }

  /**
   * The answer on a loaded model (lines 211-239): the completion's text with surrounding
   * whitespace stripped, or the failure prefix and the exception's message.
   */
  function Reply(b: LlmBackend, model: LlamaConfig, query: string, contextChunks: seq<string>, maxTokens: int): (answer: string)
    ensures b.complete(model, BuildPrompt(query, contextChunks), maxTokens, StopSequences).Ok? ==>
      |answer| <= |b.complete(model, BuildPrompt(query, contextChunks), maxTokens, StopSequences).value|
      && (answer != [] ==> !IsSpace(answer[0]) && !IsSpace(answer[|answer| - 1]))
    ensures b.complete(model, BuildPrompt(query, contextChunks), maxTokens, StopSequences).Raised? ==>
      answer == FailurePrefix + b.complete(model, BuildPrompt(query, contextChunks), maxTokens, StopSequences).message
  {
    match b.complete(model, BuildPrompt(query, contextChunks), maxTokens, StopSequences)
    case Ok(text) => Strip(text)
    case Raised(message) => FailurePrefix + message
  }

  /**
   * A successful completion comes back as the model wrote it, minus the whitespace around it:
   * whenever the text is whitespace, then a core, then whitespace, the answer is that core.
   */
  lemma ReplyIsTheStrippedCompletion(b: LlmBackend, model: LlamaConfig, query: string, contextChunks: seq<string>, maxTokens: int, lead: string, core: string, trail: string)
    requires AllSpace(lead) && AllSpace(trail)
    requires core != [] ==> !IsSpace(core[0]) && !IsSpace(core[|core| - 1])
    requires b.complete(model, BuildPrompt(query, contextChunks), maxTokens, StopSequences) == Ok(lead + core + trail)
    ensures Reply(b, model, query, contextChunks, maxTokens) == core
  {
    StripKeepsTheInnerText(lead, core, trail);
  }

  /**
   * The not-loaded answer cannot be told apart from a real one: a loaded model whose completion is
   * that message makes the LocalLLM answer exactly what an unloaded one would.
   */
  lemma SentinelsAreAmbiguous(b: LlmBackend, model: LlamaConfig, query: string, contextChunks: seq<string>, maxTokens: int)
    requires b.complete(model, BuildPrompt(query, contextChunks), maxTokens, StopSequences) == Ok(NotLoadedMessage)
    ensures Reply(b, model, query, contextChunks, maxTokens) == NotLoadedMessage
  {
    assert NotLoadedMessage[0] == 'E';
    assert NotLoadedMessage[|NotLoadedMessage| - 1] == '.';
    assert [] + NotLoadedMessage + [] == NotLoadedMessage;
    StripKeepsTheInnerText([], NotLoadedMessage, []);
  }

  /** `LocalLLM`: the model directory, the backend, and the loaded model if any. */
  class LocalLLM {
    const modelPath: string
    const backend: LlmBackend
    var llm: Option<LlamaConfig>

    /** Lines 176-179: nothing is loaded yet. */
    constructor(modelPath: string, backend: LlmBackend)
      ensures this.modelPath == modelPath && this.backend == backend && llm == None
    {
      this.modelPath := modelPath;
      this.backend := backend;
      llm := None;
    }

    /**
     * `load_model(name)` (lines 181-203): the model file is `os.path.join(model_path, name)`; a
     * missing file, or a failing import or constructor, returns False and changes nothing; otherwise
     * the new model replaces whatever was loaded.
     */
    method LoadModel(modelName: string) returns (ok: bool)
      modifies this
      ensures var path := PathJoin(modelPath, modelName);
        ok == (backend.fileExists(path) && backend.initError(ConfigFor(path)).None?)
      ensures var path := PathJoin(modelPath, modelName);
        llm == if ok then Some(ConfigFor(path)) else old(llm)
    {
      var fullModelPath := PathJoin(modelPath, modelName);
      if !backend.fileExists(fullModelPath) {
        return false;
      }
      var config := ConfigFor(fullModelPath);
      if backend.initError(config).Some? {
        return false;
      }
      llm := Some(config);
      return true;
    }

    /**
     * `generate_response` (lines 205-239): with nothing loaded, the fixed refusal and no model call;
     * otherwise the reply to the prompt built from the question and the chunks.
     */
    method GenerateResponse(query: string, contextChunks: seq<string>, maxTokens: int) returns (answer: string)
      ensures llm.None? ==> answer == NotLoadedMessage
      ensures llm.Some? ==> answer == Reply(backend, llm.value, query, contextChunks, maxTokens)
    {
      if llm.None? {
        return NotLoadedMessage;
      }
      var prompt := BuildPrompt(query, contextChunks);
      var response := backend.complete(llm.value, prompt, maxTokens, StopSequences);
      match response
      case Ok(text) =>
        answer := Strip(text);
      case Raised(message) =>
        answer := FailurePrefix + message;
    }
  }

  /**
   * `LocalLLM()` followed by `load_model()`, both with their default arguments: the model file is
   * looked up at `./models/llama-2-7b-chat.Q4_K_M.gguf`, and a fresh instance either holds that
   * model or still holds none.
   */
  method LoadDefaultModel(b: LlmBackend) returns (local: LocalLLM, ok: bool)
    ensures fresh(local) && local.modelPath == DefaultModelDir && local.backend == b
    ensures var path := DefaultModelDir + "/" + DefaultModelName;
      && ok == (b.fileExists(path) && b.initError(ConfigFor(path)).None?)
      && local.llm == if ok then Some(ConfigFor(path)) else None
  {
    local := new LocalLLM(DefaultModelDir, b);
    assert PathJoin(DefaultModelDir, DefaultModelName) == DefaultModelDir + "/" + DefaultModelName;
    ok := local.LoadModel(DefaultModelName);
  }

  /** A LocalLLM that is asked before any model is loaded refuses, whatever its backend would say. */
  method AskBeforeLoading(modelPath: string, b: LlmBackend, query: string, contextChunks: seq<string>) returns (answer: string)
    ensures answer == NotLoadedMessage
  {
    var local := new LocalLLM(modelPath, b);
    answer := local.GenerateResponse(query, contextChunks, 512);
  }
}
