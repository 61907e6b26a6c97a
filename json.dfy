/** JSON values and the JSON.stringify / JSON.parse pair, kept abstract.

    The model does not fix a concrete text syntax. A `Codec` bundles a
    serializer and a parser; `Lawful` states the two facts about the host's
    JSON library that the job code relies on. */
module Json {
  import opened Wrappers

  /** A JSON value as a request body or a stored payload carries it.
      Numbers are integers. */
  datatype Json =
    | JNull
    | JBool(b: bool)
    | JNumber(n: int)
    | JString(s: string)
    | JArray(items: seq<Json>)
    | JObject(members: seq<(string, Json)>)

  /** `encode` plays JSON.stringify on a value, `decode` plays JSON.parse on
      a text (None when JSON.parse throws). */
  datatype Codec = Codec(encode: Json -> string, decode: string -> Option<Json>) {

    /** Parsing a serialized value gives the value back, and the null value
        serializes to the text "null". */
    ghost predicate Lawful() {
      && (forall v :: decode(encode(v)) == Some(v))
      && encode(JNull) == "null"
    }

    /** JSON.parse(s) does not throw. */
    predicate IsValidJson(s: string) {
      decode(s).Some?
    }
  }
}
