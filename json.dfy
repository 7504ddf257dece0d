/** A decoded JSON object as both ends of the chat socket see it: every field the
    chat protocol uses is a string or `null`. */
module Json {
  import opened Wrappers

  datatype Value = Null | Str(s: string)

  type Object = map<string, Value>

  /** Reading a field: `data.key` in JavaScript, `data.get('key')` in Python. An
      absent field and a `null` field read the same. */
  function Get(o: Object, key: string): (v: Option<string>)
    ensures v.Some? <==> key in o && o[key].Str?
    ensures v.Some? ==> o[key] == Str(v.value)
  {
    if key in o && o[key].Str? then Some(o[key].s) else None
  }

  /** The JSON encoding of a string-or-`None` value. */
  function FromOption(v: Option<string>): (j: Value)
    ensures j.Str? <==> v.Some?
    ensures v.Some? ==> j.s == v.value
  {
    if v.Some? then Str(v.value) else Null
  }
}
