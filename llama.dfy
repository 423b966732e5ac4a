/** The Llama generation adapter (`LlamaGen`): model-family validation, the
    device and precision choice made at setup, and `generate`, which builds
    the prompt, sets the tokenizer's language hint, records the sampling
    parameters and extracts the answer from the generated text.

    The tokenizer, the model loader, the text-generation pipeline and the
    language detector are external. The loaded artifacts are recorded as
    the arguments they were loaded with. The pipeline and the detector are
    function parameters of `Generate`. */
module LlamaGeneration {
  import opened Outcomes
  import opened Text

  const MetaPrefix := "meta-llama/"

  const CudaDevice := "cuda"
  const TextGenerationTask := "text-generation"

  const AnswerMarker := "Answer:"
  const FallbackLanguage := "en"
  const ContextSeparator := " "

  /** The fixed sampling settings passed to the pipeline. */
  const SamplingTopK := 50
  const SamplingTopP: real := 0.95
  const ReturnSequences := 1

  const ModelParamsKey := "model_params"
  const GeneratedTextKey := "generated_text"

  datatype Precision = Float16 | Float32

  /** The arguments `AutoModelForCausalLM.from_pretrained` is called with. */
  datatype LoadedModel = LoadedModel(name: string, token: string, dtype: Precision)

  /** The arguments `pipeline` is called with. */
  datatype Pipeline = Pipeline(task: string, model: LoadedModel, tokenizer: Tokenizer, device: int)

  /** The keyword arguments of one pipeline call, as recorded in the logs. */
  datatype ModelParams = ModelParams(
    textInputs: string,
    maxNewTokens: int,
    doSample: bool,
    temperature: real,
    topK: int,
    topP: real,
    numReturnSequences: int,
    eosTokenId: int)

  datatype LogValue = ModelParamsLog(params: ModelParams)

  /** One returned sequence of the pipeline: a dictionary from field names to text. */
  type Response = map<string, string>

  /* ---------------------------------------------------------------------
     Setup choices
     --------------------------------------------------------------------- */

  /** `torch_dtype` for the model: half precision exactly on the CUDA device. */
  function TorchDtype(deviceName: string): (p: Precision)
    ensures p == Float16 <==> deviceName == CudaDevice
  {
    if deviceName == CudaDevice then Float16 else Float32
  }

  /** `device` for the pipeline: GPU 0 on CUDA, the CPU (-1) otherwise. */
  function PipelineDevice(deviceName: string): (d: int)
    ensures d == 0 <==> deviceName == CudaDevice
    ensures d == 0 || d == -1
  {
    if deviceName == CudaDevice then 0 else -1
  }

  /** The model is loaded in half precision exactly when the pipeline runs on the GPU. */
  lemma HalfPrecisionOnGpu(deviceName: string)
    ensures TorchDtype(deviceName) == Float16 <==> PipelineDevice(deviceName) == 0
    ensures TorchDtype(deviceName) == Float32 <==> PipelineDevice(deviceName) == -1
  {
  }

  /* ---------------------------------------------------------------------
     Prompt assembly and the language hint
     --------------------------------------------------------------------- */

  /** `' '.join(context)`: no passage gives "", one passage is unchanged, and
      n passages are separated by exactly n - 1 single spaces. */
  function JoinContext(context: seq<string>): (joined: string)
    ensures |context| == 0 ==> joined == []
    ensures |context| == 1 ==> joined == context[0]
    ensures |context| >= 1 ==> |joined| == TotalLength(context) + |context| - 1
  {
    JoinLength(context, ContextSeparator);
    JoinWith(context, ContextSeparator)
  }

  /** Passages without spaces can be recovered from the joined context. */
  lemma JoinContextRecoverable(context: seq<string>)
    requires |context| >= 1
    requires forall j :: 0 <= j < |context| ==> ' ' !in context[j]
    ensures SplitOn(JoinContext(context), ContextSeparator) == context
  {
    SplitJoinRoundTrip(context, ' ');
  }

  /** `str(detect(query)) or 'en'`: the detected code, or "en" when it is empty. */
  function LanguageOrDefault(detected: string): (language: string)
    ensures language != []
    ensures detected != [] ==> language == detected
    ensures detected == [] ==> language == FallbackLanguage
  {
    if detected != [] then detected else FallbackLanguage
  }

  /* ---------------------------------------------------------------------
     Answer extraction
     --------------------------------------------------------------------- */

  /** `response[0].get('generated_text', '')`. */
  function GeneratedText(response: Response): string
  {
    if GeneratedTextKey in response then response[GeneratedTextKey] else []
  }

  /** `answer.split('Answer:')[-1].strip()`. */
  function ExtractAnswer(generated: string): (answer: string)
    ensures IsTrimmed(answer)
  {
    Trim(Last(SplitOn(generated, AnswerMarker)))
  }

  /** "Answer:" has no proper suffix that is also a prefix. */
  lemma AnswerMarkerNoSelfOverlap()
    ensures NoSelfOverlap(AnswerMarker)
  {
    forall d | 0 < d < |AnswerMarker|
      ensures AnswerMarker[d..] != AnswerMarker[..|AnswerMarker| - d]
    {
      assert AnswerMarker[d..][0] == AnswerMarker[d] != 'A';
    }
  }

  /** The answer holds no "Answer:" and is a substring of the generated text. */
  lemma ExtractAnswerSubstringWithoutMarker(generated: string)
    ensures !Occurs(ExtractAnswer(generated), AnswerMarker)
    ensures Occurs(generated, ExtractAnswer(generated))
  {
    SplitLastIsLastSegment(generated, AnswerMarker);
    TrimOfLastSegment(generated, AnswerMarker, Last(SplitOn(generated, AnswerMarker)));
  }

  /** The answer is the stripped text after the rightmost "Answer:", or the
      whole text stripped when there is none. */
  lemma ExtractAnswerAfterLastMarker(generated: string)
    ensures ExtractAnswer(generated) == Trim(AfterLast(generated, AnswerMarker))
    ensures !Occurs(generated, AnswerMarker) ==> ExtractAnswer(generated) == Trim(generated)
  {
    AnswerMarkerNoSelfOverlap();
    SplitLastIsAfterLast(generated, AnswerMarker);
    AfterLastIsLastSegment(generated, AnswerMarker);
  }

  /** Extracting from an extracted answer changes nothing. */
  lemma ExtractAnswerIdempotent(generated: string)
    ensures ExtractAnswer(ExtractAnswer(generated)) == ExtractAnswer(generated)
  {
    var answer := ExtractAnswer(generated);
    ExtractAnswerSubstringWithoutMarker(generated);
    SplitWithoutSeparator(answer, AnswerMarker);
    TrimOfTrimmed(answer);
  }

  /** A first response without "generated_text" yields the empty answer. */
  lemma MissingGeneratedTextGivesEmptyAnswer(response: Response)
    requires GeneratedTextKey !in response
    ensures ExtractAnswer(GeneratedText(response)) == []
  {
    assert SplitOn([], AnswerMarker) == [[]];
  }

  /** Any text that qualifies as the last segment, stripped, is the answer. */
  lemma ExtractAnswerFromLastSegment(generated: string, segment: string)
    requires IsLastSegment(generated, AnswerMarker, segment)
    ensures ExtractAnswer(generated) == Trim(segment)
  {
    AnswerMarkerNoSelfOverlap();
    SplitLastIsLastSegment(generated, AnswerMarker);
    LastSegmentUnique(generated, AnswerMarker, Last(SplitOn(generated, AnswerMarker)), segment);
  }

  /** Worked case: with two markers the text after the last one is returned. */
  lemma ExtractAnswerTwoMarkers(s: string)
    requires s == "Answer: A Answer: B"
    ensures ExtractAnswer(s) == "B"
  {
    TwoMarkersLastSegment(s);
    ExtractAnswerFromLastSegment(s, " B");
    StripSpaceB();
  }

  lemma TwoMarkersLastSegment(s: string)
    requires s == "Answer: A Answer: B"
    ensures IsLastSegment(s, AnswerMarker, " B")
  {
    assert OccursAt(s, AnswerMarker, 0);
    assert s[|s| - |AnswerMarker| - 2..] == AnswerMarker + " B";
    assert !Occurs(" B", AnswerMarker);
  }

  lemma StripSpaceB()
    ensures Trim(" B") == "B"
  {
    TrimLeadingSpace(" B");
  }

  /** Worked case: the text after the marker, stripped. */
  lemma ExtractAnswerAfterContext(s: string)
    requires s == "context... Answer: Paris"
    ensures ExtractAnswer(s) == "Paris"
  {
    AfterContextLastSegment(s);
    ExtractAnswerFromLastSegment(s, " Paris");
    StripSpaceParis();
  }

  lemma AfterContextLastSegment(s: string)
    requires s == "context... Answer: Paris"
    ensures IsLastSegment(s, AnswerMarker, " Paris")
  {
    assert OccursAt(s, AnswerMarker, 11);
    assert s[|s| - |AnswerMarker| - 6..] == AnswerMarker + " Paris";
    assert !Occurs(" Paris", AnswerMarker);
  }

  lemma StripSpaceParis()
    ensures Trim(" Paris") == "Paris"
  {
    TrimLeadingSpace(" Paris");
  }

  /** Worked case: text without the marker is returned whole. */
  lemma ExtractAnswerWithoutMarker(s: string)
    requires s == "Paris is the capital"
    ensures ExtractAnswer(s) == s
  {
    assert forall k | 0 <= k < |s| :: s[k] != 'A';
    NoOccurrenceWithoutFirstChar(s, AnswerMarker);
    SplitWithoutSeparator(s, AnswerMarker);
    TrimOfTrimmed(s);
  }

  /* ---------------------------------------------------------------------
     The adapter object
     --------------------------------------------------------------------- */

  /** The tokenizer loaded for the model. `generate` sets its language hint,
      which stays set until the next call. */
  class Tokenizer {
    const modelName: string
    const token: string
    const eosTokenId: int
    var langCode: Option<string>

    constructor(modelName: string, token: string, eosTokenId: int)
      ensures this.modelName == modelName && this.token == token
      ensures this.eosTokenId == eosTokenId && langCode == None
    {
      this.modelName := modelName;
      this.token := token;
      this.eosTokenId := eosTokenId;
      langCode := None;
    }
  }

  class LlamaGen {
    var modelName: string
    var apiKey: string
    var deviceName: string
    var temperature: real
    var outputMaxLength: int
    var promptTemplate: string
    var logs: map<string, LogValue>
    var tokenizer: Tokenizer?
    var model: Option<LoadedModel>
    var generator: Option<Pipeline>

    /** The configuration the base class stores before `_validate` and `_setup` run. */
    constructor(modelName: string, apiKey: string, deviceName: string, temperature: real,
                outputMaxLength: int, promptTemplate: string)
      ensures this.modelName == modelName && this.apiKey == apiKey
      ensures this.deviceName == deviceName && this.temperature == temperature
      ensures this.outputMaxLength == outputMaxLength && this.promptTemplate == promptTemplate
      ensures logs == map[] && tokenizer == null && model == None && generator == None
    {
      this.modelName := modelName;
      this.apiKey := apiKey;
      this.deviceName := deviceName;
      this.temperature := temperature;
      this.outputMaxLength := outputMaxLength;
      this.promptTemplate := promptTemplate;
      logs := map[];
      tokenizer := null;
      model := None;
      generator := None;
    }

    /** `_validate`: only model names of the meta-llama family are accepted. */
    function Validate(): (r: Outcome)
      reads this
      ensures r == Pass <==> |MetaPrefix| <= |modelName| && modelName[..|MetaPrefix|] == MetaPrefix
      ensures r != Pass ==> r == Fail(InvalidModelName(modelName))
    {
      if MetaPrefix <= modelName then Pass else Fail(InvalidModelName(modelName))
    }

    /** The model name passed validation, and setup has loaded the tokenizer
        and built the pipeline around it. */
    predicate Ready()
      reads this
    {
      Validate() == Pass && tokenizer != null && generator.Some? && generator.value.tokenizer == tokenizer
    }

    /** `_setup`: load the tokenizer and the model with the model name and the
        API key, in the precision the device calls for, and build the
        text-generation pipeline on the matching device. The end-of-sequence
        id is a property of the loaded tokenizer files. */
    method Setup(eosTokenId: int)
      requires Validate() == Pass
      modifies this`tokenizer, this`model, this`generator
      ensures Ready() && fresh(tokenizer)
      ensures tokenizer.modelName == modelName && tokenizer.token == apiKey
      ensures tokenizer.eosTokenId == eosTokenId && tokenizer.langCode == None
      ensures model == Some(LoadedModel(modelName, apiKey, TorchDtype(deviceName)))
      ensures generator == Some(Pipeline(TextGenerationTask, model.value, tokenizer, PipelineDevice(deviceName)))
    {
      tokenizer := new Tokenizer(modelName, apiKey, eosTokenId);
      var loaded := LoadedModel(modelName, apiKey, TorchDtype(deviceName));
      model := Some(loaded);
      generator := Some(Pipeline(TextGenerationTask, loaded, tokenizer, PipelineDevice(deviceName)));
    }

    /** `generate`: format the prompt, detect the language of the query, set
        the tokenizer's hint, call the pipeline, log its parameters and
        return the extracted answer. A detector failure propagates before
        any state changes; an empty pipeline result fails after the hint and
        the log are written. */
    method Generate(query: string, context: seq<string>,
                    detect: string -> Result<string>,
                    run: (Pipeline, ModelParams) -> seq<Response>)
      returns (r: Result<string>)
      requires Ready()
      modifies this`logs, tokenizer
      ensures Ready()
      ensures var params := ModelParams(Format(promptTemplate, query, JoinContext(context)),
                                        outputMaxLength, true, temperature, SamplingTopK,
                                        SamplingTopP, ReturnSequences, tokenizer.eosTokenId);
        match detect(query)
        case Err(e) =>
          && r == Err(e)
          && logs == old(logs)
          && tokenizer.langCode == old(tokenizer.langCode)
        case Ok(language) =>
          && tokenizer.langCode == Some(LanguageOrDefault(language))
          && logs == old(logs)[ModelParamsKey := ModelParamsLog(params)]
          && var responses := run(generator.value, params);
             r == if responses == [] then Err(IndexOutOfRange(0))
                  else Ok(ExtractAnswer(GeneratedText(responses[0])))
    {
      var inputText := Format(promptTemplate, query, JoinContext(context));
      var detected := detect(query);
      if detected.Err? {
        return Err(detected.error);
      }
      tokenizer.langCode := Some(LanguageOrDefault(detected.value));
      var params := ModelParams(inputText, outputMaxLength, true, temperature, SamplingTopK,
                                SamplingTopP, ReturnSequences, tokenizer.eosTokenId);
      var responses := run(generator.value, params);
      logs := logs[ModelParamsKey := ModelParamsLog(params)];
      if responses == [] {
        return Err(IndexOutOfRange(0));
      }
      return Ok(ExtractAnswer(GeneratedText(responses[0])));
    }

  }
}
