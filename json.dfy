/** The `serde_json::Value` payload of the `customData` maps. The format never looks inside
    it: it is carried along and compared for equality only. */
module Json {

  datatype Value =
    | Null
    | Bool(b: bool)
    | Number(n: int)
    | String(s: string)
    | Array(items: seq<Value>)
    | Object(fields: map<string, Value>)

  /** `serde_json::Map<String, Value>`. */
  type Map = map<string, Value>
}
