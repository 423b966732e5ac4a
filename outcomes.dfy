/** Error values and the failure-carrying wrappers shared by both adapters.
    Each `Error` constructor stands for an exception the Python code raises
    or lets through. */
module Outcomes {

  datatype Option<+T> = None | Some(value: T)

  datatype Error =
    /** `LlamaGen._validate`: the model name is not in the meta-llama family. */
    | InvalidModelName(name: string)
    /** `OpenAIAug._setup`: `api_key` is empty or missing (a ValueError). */
    | MissingApiKey
    /** `OpenAIAug.search`: no vector database is attached. */
    | DbNotInitialized
    /** A Python `IndexError`: a list was indexed at a position it does not have. */
    | IndexOutOfRange(index: int)

  datatype Result<+T> = Ok(value: T) | Err(error: Error)

  /** The result of a check that returns nothing on success. */
  datatype Outcome = Pass | Fail(error: Error)
}
