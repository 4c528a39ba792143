/** JSON values as the source holds them once decoded: numbers stay text, members have no order. */
module Json {
  import opened Wrappers

  datatype Json =
    | Null
    | Boolean(value: bool)
    | Number(literal: string)
    | String(text: string)
    | Array(items: seq<Json>)
    | Object(members: map<string, Json>)

  type Members = map<string, Json>

  /** The text of a string member. */
  function Text(m: Members, name: string): Option<string> {
    if name in m && m[name].String? then Some(m[name].text) else None
  }
}
