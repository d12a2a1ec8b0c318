/** Optional values, for the null pointers and missing entries of the source. */
module Options {
  datatype Option<+T> = None | Some(value: T)
}

/** Parsed JSON values and the accessors of the JSON library that the tester relies on. */
module JsonTree {
  import opened Options

  datatype Json =
    | Object(members: map<string, Json>)
    | Array(elements: seq<Json>)
    | String(text: string)
    | Integer(number: int)
    | Real(amount: real)
    | Boolean(truth: bool)
    | Null

  /** Turns message text into a value; None stands for a text that does not parse. */
  type Loader = string -> Option<Json>

  /** The library's object lookup: no value for a null pointer, a non-object or an absent key. */
  function Get(j: Option<Json>, key: string): Option<Json> {
    if j.Some? && j.value.Object? && key in j.value.members then Some(j.value.members[key]) else None
  }

  /** The library's string accessor: a null pointer unless the value is a string. */
  function TextOf(j: Option<Json>): Option<string> {
    if j.Some? && j.value.String? then Some(j.value.text) else None
  }

  /** A string member, or the empty string the caller's variable started with. */
  function StringAt(j: Option<Json>, key: string): string {
    var t := TextOf(Get(j, key));
    if t.Some? then t.value else ""
  }

  /** A member with a given text. */
  predicate Says(j: Option<Json>, key: string, text: string) {
    Get(j, key) == Some(String(text))
  }

  /** The value reached by following object keys. */
  function Lookup(j: Option<Json>, path: seq<string>): Option<Json>
    decreases |path|
  {
    if path == [] then j else Lookup(Get(j, path[0]), path[1..])
  }
}
