/** The client's view of an edge-function call (`supabase.functions.invoke`). */
module FunctionsClient {

  /** How an invocation settles, with the reply body decoded to `T`. */
  datatype Invocation<T> =
    | InvokeError(message: string)             // `error` is set: the call failed or the function answered non-2xx
    | InvokeData(errorField: string, data: T)  // `data`, and its `error` property ("" when absent or empty)

  /** The panels treat a call as successful when `error` is unset and `data.error` is falsy. */
  predicate Succeeded<T>(r: Invocation<T>) {
    r.InvokeData? && r.errorField == ""
  }
}
