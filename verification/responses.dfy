/** Parsed service payloads and the exceptions that replace them. */
module Responses {

  /** A decoded JSON value. Numbers are kept as integers: nothing in the
      greeting flow reads one. */
  datatype Json =
    | JNull
    | JBool(b: bool)
    | JNumber(n: int)
    | JString(s: string)
    | JArray(elems: seq<Json>)
    | JObject(fields: map<string, Json>)

  /** An exception raised by a service call or by code reading its reply. */
  datatype Fault = Fault(reason: string)
}
