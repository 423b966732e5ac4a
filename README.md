# rago adapters in Dafny

This project models the two provider adapters of the rago retrieval-augmented
generation pipeline.

- `LlamaGen` is the generation stage. It checks that the model belongs to the
  meta-llama family. At setup it loads the tokenizer and the model, choosing
  half precision and GPU 0 on CUDA and full precision on the CPU otherwise.
  `generate` then:
  - fills the prompt template with the query and the space-joined context;
  - sets the tokenizer's language hint from the detected language of the query;
  - calls the text-generation pipeline with fixed sampling settings and logs
    those settings;
  - returns the stripped text after the last `Answer:` marker.
- `OpenAIAug` is the augmentation stage. At setup it requires an API key,
  defaults the model name and creates a client. `get_embedding` keeps only the
  first returned embedding, as a single-row matrix. `search`:
  - embeds the documents and the query;
  - resolves `top_k` through the chain argument → instance value → 2 → 1;
  - stores the document matrix in the vector database and searches it;
  - maps the returned positions back to documents and logs indices, scores and
    search parameters.

Files:

- `outcomes.dfy` (module `Outcomes`): the `Option`, `Result` and `Outcome`
  wrappers, and one `Error` constructor per exception the code raises or lets
  through.
- `text.dfy` (module `Text`): the Python string operations the adapters depend
  on, with their properties:
  - `str.strip()` over exactly the characters `str.isspace()` accepts;
  - `str.split(sep)` (a left-to-right scan) and `sep.join(parts)`;
  - the `{query}`/`{context}` substitution of `str.format`.
- `llama.dfy` (module `LlamaGeneration`): `LlamaGen` as a class whose fields
  setup and generation update. The tokenizer is a class too, because
  `generate` writes its language hint.
- `openai.dfy` (module `OpenAIAugmentation`): `OpenAIAug` as a class. The
  global `openai` settings, the embeddings client and the vector database are
  small classes that record the calls made to them.

The external runtimes are parameters of the model:
- The language detector and the text-generation pipeline are function
  parameters of `Generate`.
- The embedding service is a function held by the client.
- The database's ranking is a function held by the database object.

For `OpenAIAug`, the client and the database record every call made to them.
The model therefore states which of those calls are made, with which
arguments, in which order, and how their results are used. For `LlamaGen`,
only the arguments and the use of the results are stated (see "## Left out").

### Behaviour worth noting

- A detector that raises makes `generate` fail, and the language hint stays as
  it was. Only an empty detected code falls back to `en` (`llama.py:58`).
- `[documents[i] for i in indices]` accepts negative positions down to
  `-len(documents)`, counting from the end. Only positions outside that range
  raise (`openai.py:61`).
- `search` writes the keys `indices`, `scores` and `search_params` and keeps
  the other entries of the log (`openai.py:63-68`).
- `top_k` and `model_name` are resolved with Python's `or` chains, so 0 and the
  empty string count as unset (`openai.py:32`, `openai.py:56`). The
  `ResolveTopKIsOrChain` lemma proves the resolution equal to that chain.

## Model

| member | source | states |
|---|---|---|
| Text.Trim | src/rago/generation/llama.py:80 | `strip()`: the result has no whitespace at either end, and it is the slice of the input left after removing a whitespace-only prefix and a whitespace-only suffix |
| Text.TrimOfTrimmed | src/rago/generation/llama.py:80 | stripping text that has no whitespace at either end returns it unchanged |
| Text.SplitOn | src/rago/generation/llama.py:80 | `split(sep)` always yields at least one part, so `[-1]` is always defined |
| Text.SplitWithoutSeparator | src/rago/generation/llama.py:80 | a text that does not contain the separator splits into the one-element list of itself |
| Text.SplitLastIsLastSegment | src/rago/generation/llama.py:80 | the last part of the split is a suffix of the text, contains no separator, and is the whole text or follows an occurrence of the separator |
| Text.LastSegmentUnique | src/rago/generation/llama.py:80 | for a separator that does not overlap itself, at most one suffix has the last-part property |
| Text.SplitLastIsAfterLast | src/rago/generation/llama.py:80 | for such a separator, the last split part equals the text after the rightmost occurrence, found by scanning from the right |
| Text.AfterLastIsLastSegment | src/rago/generation/llama.py:80 | the text after the rightmost occurrence has the last-part property |
| Text.TrimOfLastSegment | src/rago/generation/llama.py:80 | the stripped last part contains no separator and occurs in the original text |
| Text.JoinSplitRoundTrip | src/rago/generation/llama.py:80 | joining the split parts with the separator gives back the original text |
| Text.SplitJoinRoundTrip | src/rago/generation/llama.py:54 | splitting parts joined with a one-character separator that none of them contains gives back the parts |
| Text.JoinLength | src/rago/generation/llama.py:54 | no parts join to ""; n parts join to their total length plus n - 1 separators |
| Text.JoinWithEnds | src/rago/generation/llama.py:54 | Python's `sep.join(parts)`: the joined text starts with the first part and ends with the last |
| Text.FormatCopiesLiteralText | src/rago/generation/llama.py:53-55 | `str.format` copies a template without replacement fields unchanged |
| Text.FormatSubstitutesFields | src/rago/generation/llama.py:53-55 | a template `a{query}b{context}e` with literal a, b, e formats to a, the query, b, the context, e |
| LlamaGeneration.LlamaGen.Validate | src/rago/generation/llama.py:22-28 | passes if and only if the model name starts with `meta-llama/`; otherwise fails with the offending name |
| LlamaGeneration.TorchDtype | src/rago/generation/llama.py:36-42 | float16 exactly when the device is `cuda`, float32 otherwise |
| LlamaGeneration.PipelineDevice | src/rago/generation/llama.py:44-49 | device 0 exactly when the device is `cuda`, -1 otherwise |
| LlamaGeneration.HalfPrecisionOnGpu | src/rago/generation/llama.py:36-48 | the model is in half precision exactly when the pipeline runs on GPU 0 |
| LlamaGeneration.LlamaGen.Setup | src/rago/generation/llama.py:30-49 | runs only on a validated model name; a fresh tokenizer is loaded with the model name and the key; the model is loaded with the same arguments and the device's precision; the pipeline is a text-generation pipeline bound to that model, that tokenizer and the device's index |
| LlamaGeneration.JoinContext | src/rago/generation/llama.py:54 | `' '.join(context)`: "" for no passages, the passage itself for one, and the total length plus n - 1 spaces for n passages |
| LlamaGeneration.JoinContextRecoverable | src/rago/generation/llama.py:54 | passages without spaces can be recovered by splitting the joined context on a space |
| LlamaGeneration.LanguageOrDefault | src/rago/generation/llama.py:58 | the hint is never empty: the detected code when it is non-empty, `en` otherwise |
| LlamaGeneration.LlamaGen.Generate | src/rago/generation/llama.py:51-80 | if detection fails, that error is returned and the hint and the logs are unchanged. Otherwise: the hint is the detected code or `en`; `model_params` is logged with the formatted prompt, the length cap, sampling on, the temperature, top_k 50, top_p 0.95, one sequence and the tokenizer's end-of-sequence id; the result is an IndexError for an empty pipeline result, otherwise the answer extracted from the first response's `generated_text` |
| LlamaGeneration.ExtractAnswer | src/rago/generation/llama.py:80 | the answer has no whitespace at either end |
| LlamaGeneration.AnswerMarkerNoSelfOverlap | src/rago/generation/llama.py:80 | `Answer:` has no proper suffix that is also its prefix |
| LlamaGeneration.ExtractAnswerSubstringWithoutMarker | src/rago/generation/llama.py:80 | the answer never contains `Answer:` and is a substring of the generated text |
| LlamaGeneration.ExtractAnswerAfterLastMarker | src/rago/generation/llama.py:80 | the answer is the stripped text after the last `Answer:`; without a marker it is the whole generated text, stripped |
| LlamaGeneration.ExtractAnswerFromLastSegment | src/rago/generation/llama.py:80 | any suffix that follows a marker (or is the whole text) and contains no marker gives the answer once stripped |
| LlamaGeneration.ExtractAnswerIdempotent | src/rago/generation/llama.py:80 | extracting again from an extracted answer changes nothing |
| LlamaGeneration.MissingGeneratedTextGivesEmptyAnswer | src/rago/generation/llama.py:78-80 | a first response without `generated_text` gives the empty answer |
| LlamaGeneration.ExtractAnswerTwoMarkers | src/rago/generation/llama.py:80 | `"Answer: A Answer: B"` gives `"B"` |
| LlamaGeneration.ExtractAnswerAfterContext | src/rago/generation/llama.py:80 | `"context... Answer: Paris"` gives `"Paris"` |
| LlamaGeneration.ExtractAnswerWithoutMarker | src/rago/generation/llama.py:80 | `"Paris is the capital"` is returned whole |
| OpenAIAugmentation.ModelNameOrDefault | src/rago/augmented/openai.py:32 | the name is never empty: the configured name when it is set, `text-embedding-3-small` otherwise |
| OpenAIAugmentation.ResolveTopK | src/rago/augmented/openai.py:56 | never 0; the argument when it is nonzero (negative values included), else the instance value when it is nonzero, else 2 |
| OpenAIAugmentation.FirstTruthy | src/rago/augmented/openai.py:56 | a Python `or` chain: 0 exactly when every value is 0; otherwise the first nonzero value |
| OpenAIAugmentation.ResolveTopKIsOrChain | src/rago/augmented/openai.py:56 | the resolution equals the `or` chain of the argument, the instance value, 2 and 1 |
| OpenAIAugmentation.FirstRow | src/rago/augmented/openai.py:43-44 | an empty provider result is an IndexError at position 0; otherwise the result is one row, the first embedding |
| OpenAIAugmentation.FirstRowIgnoresLaterResults | src/rago/augmented/openai.py:43-44 | embeddings after the first one never affect the result |
| OpenAIAugmentation.Position | src/rago/augmented/openai.py:61 | a Python index in range denotes a position in `[0, n)`; a non-negative index denotes itself |
| OpenAIAugmentation.MapIndices | src/rago/augmented/openai.py:61 | succeeds if and only if every index is in range. On success the result has one document per index, in index order, each read at the position that index denotes. On failure the error names the first index out of range |
| OpenAIAugmentation.MapIndicesInRange | src/rago/augmented/openai.py:61 | with non-negative in-range indices, the result is `documents[indices[j]]` at each j and every result is one of the documents |
| OpenAIAugmentation.EmbeddingsClient.Create | src/rago/augmented/openai.py:40-42 | one request with the whole input and the model is recorded, and the service's answer is returned |
| OpenAIAugmentation.VectorDb.Embed | src/rago/augmented/openai.py:58 | the matrix is added to what the database holds, and the call is recorded |
| OpenAIAugmentation.VectorDb.Search | src/rago/augmented/openai.py:59 | the stored contents are unchanged, the call is recorded, and the result is the database's ranking of its contents for the query and k |
| OpenAIAugmentation.OpenAIAug.Setup | src/rago/augmented/openai.py:27-33 | without a key it fails with nothing changed. Otherwise the global key is set, the model name gets its default, and a fresh client bound to the key is created with no requests yet |
| OpenAIAugmentation.OpenAIAug.GetEmbedding | src/rago/augmented/openai.py:35-44 | exactly one request with the whole content and the model name is sent, and the result is the first returned embedding as one row |
| OpenAIAugmentation.OpenAIAug.Search | src/rago/augmented/openai.py:46-70 | see the description after this table |
| OpenAIAugmentation.SearchLogKeys | src/rago/augmented/openai.py:63-68 | a successful search's log update sets exactly the three keys and keeps every other entry |

`OpenAIAugmentation.OpenAIAug.Search` has these outcomes:
- Without a database it fails before any request is sent, and the log is
  unchanged.
- Otherwise it sends the document request and then the query request. An
  embedding failure stops it there, with the database untouched.
- Otherwise the database receives `embed(document row)` followed by
  `search(query row, resolved k)`. The result is the documents mapped from the
  returned positions.
- The three log keys are written only when that mapping succeeds.

## Left out

- Networking, the OpenAI HTTP client, model downloads, and torch and
  transformers loading and sampling are not modelled. The pipeline, the
  embedding service and the database ranking are function parameters. Their
  results are inputs to the model, not computed by it.
- The language-detection algorithm (`langdetect.detect`) is a function
  parameter. Only the way its result or its failure is used is modelled.
- Floating-point values are not modelled. Embedding values and scores are an
  abstract `Float` type and are carried through unchanged. Temperature and
  top_p are `real`.
- The score ordering of the database's results is owned by the database, so
  nothing about best-first order is stated.
- `GeneratedText` has no contract of its own. It is `response.get('generated_text', '')`, and
  `MissingGeneratedTextGivesEmptyAnswer` and `Generate` state its use.
- `str.format` is reduced to the `{query}` and `{context}` fields. Escaped
  braces (`{{`, `}}`), other fields and format specifications are copied
  literally instead of being interpreted or raising.
- Python's `None` and the empty string are one value for `api_key` and
  `model_name`, and `None` and 0 are one value for `top_k`. Both members of
  each pair are false and take the same branch of the code.
- The vector database counts as missing exactly when it is `null`. The code's
  `not hasattr(self, 'db') or not self.db` also treats a database object that
  is itself false as missing.
- `eos_token_id` is taken to be an integer fixed by the tokenizer files. It is
  an argument of `Setup`.
- The base classes (`GenerationBase`, `AugmentedBase`) are not part of this
  model. Their constructors only store the configuration here. The order in
  which they call `_validate` and `_setup` is represented by preconditions:
  - `LlamaGen.Setup` requires `Validate() == Pass`;
  - `Ready()`, which `Generate` requires, holds only after validation passed
    and setup ran;
  - `GetEmbedding` and `Search` require `client != null`, which holds after
    `Setup`.
- The class defaults of `LlamaGen` (`llama.py:18-20`: the model name, the
  temperature 0.5 and the output length 500) are applied by the base class and
  are not part of this model. The constructor takes the values it is given.
- `LlamaGeneration.LlamaGen.Generate` does not state the order or number of
  its external calls. The detector and the pipeline are pure function
  parameters, so the contract cannot say that the detector runs before the
  pipeline, or that the pipeline runs once and not at all after a detector
  failure. It states the arguments each receives and how their results are
  used.
- The detector's failure is any `Error` value that the `detect` parameter
  returns. The exception type langdetect raises is not modelled.
- The `@typechecked` decorator's run-time type checks are not modelled. Dafny's
  static types take their place.
- `LlamaGeneration.LlamaGen.Generate` does not model an exception from the
  pipeline call. Such an exception would leave the language hint set but the
  log unwritten.
- `OpenAIAugmentation.OpenAIAug.Search` does not model an exception raised by
  the provider or the database. Only the failures the adapter itself causes are
  modelled: a missing database, an empty embedding result, and a position out
  of range.
