/** The values that flow between the components of the answer-resolution pipeline. */
module Types {

  /** One conversation turn as the caller supplies it: `{"role": ..., "content": ...}`. */
  datatype Message = Message(role: string, content: string)

  /** The structured answer `{"response": ...}`; it always has its `response` key. */
  datatype Answer = Answer(response: string)

  /** A field value produced by the JSON decoder: only whether it is a string matters here. */
  datatype Json = JString(text: string) | JNonString

  /** A decoded JSON object (the decoder keeps the last of duplicated keys). */
  type JsonObject = map<string, Json>

  /** The exceptions that escape the pipeline instead of becoming an answer. */
  datatype Fault =
    | ProviderUnavailable   // the completion call raised (network, auth, rate limit, missing content)
    | SearchUnavailable     // the web-search call raised
    | ResponseNotString     // `.strip()` on a decoded `response` field that is not a string
}
