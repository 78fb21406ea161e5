/** Decoded bodies of the platform's responses, and the parts of Python's value
    semantics the scripts lean on when they read them: subscripting with a
    string key, iterating with `for`, and a dict's `.items()`. */
module Json {

  /** A value as Python's json decoder hands it back. An object keeps its
      fields in document order, which is the order a Python dict iterates in. */
  datatype Json =
    | JNull
    | JBool(b: bool)
    | JNumber(n: int)
    | JString(s: string)
    | JArray(items: seq<Json>)
    | JObject(fields: seq<Field>)

  datatype Field = Field(key: string, value: Json)

  datatype Option<T> = None | Some(value: T)

  /** The Python exceptions reading a response can raise. */
  datatype Exception =
    | KeyError(key: string)  // `d[k]` on a dict that has no key k
    | TypeError              // subscripting a non-dict with a string, iterating a non-iterable
    | AttributeError         // `.items()` on a value that is not a dict

  /** A Python expression either yields a value or raises. */
  datatype Outcome<T> = Ok(value: T) | Raised(exception: Exception) {
    predicate IsFailure() { Raised? }
    function PropagateFailure<U>(): Outcome<U> requires Raised? { Raised(exception) }
    function Extract(): T requires Ok? { value }
  }

  /** The key set of a dict. */
  function Keys(fields: seq<Field>): (r: set<string>)
    ensures forall i :: 0 <= i < |fields| ==> fields[i].key in r
    decreases |fields|
  {
    if fields == [] then {} else Keys(fields[..|fields| - 1]) + {fields[|fields| - 1].key}
  }

  /** The value a dict holds under `key`. Of a key the document repeats, the
      decoder keeps the last value. */
  function Lookup(fields: seq<Field>, key: string): (r: Option<Json>)
    ensures r.Some? <==> key in Keys(fields)
    decreases |fields|
  {
    if fields == [] then None
    else if fields[|fields| - 1].key == key then Some(fields[|fields| - 1].value)
    else Lookup(fields[..|fields| - 1], key)
  }

  /** Python's `value[key]` with a string key. */
  function Index(value: Json, key: string): (r: Outcome<Json>)
    ensures r.Ok? <==> value.JObject? && key in Keys(value.fields)
    ensures r.Ok? ==> Lookup(value.fields, key) == Some(r.value)
    ensures r.Raised? ==> r.exception == if value.JObject? then KeyError(key) else TypeError
  {
    match value
    case JObject(fields) =>
      (match Lookup(fields, key)
       case Some(v) => Ok(v)
       case None => Raised(KeyError(key)))
    case _ => Raised(TypeError)
  }

  /** The elements `for x in value` visits: a list's items, a dict's keys, a
      string's one-character strings; numbers, booleans and None are not iterable. */
  function Iterate(value: Json): (r: Outcome<seq<Json>>)
    ensures value.JArray? ==> r == Ok(value.items)
    ensures r.Raised? <==> value.JNull? || value.JBool? || value.JNumber?
    ensures r.Raised? ==> r.exception == TypeError
    ensures value.JObject? ==> r.Ok? && |r.value| == |value.fields| && forall x :: x in r.value ==> x.JString?
    ensures value.JString? ==> r.Ok? && |r.value| == |value.s| && forall x :: x in r.value ==> x.JString?
  {
    match value
    case JArray(items) => Ok(items)
    case JObject(fields) => Ok(seq(|fields|, i requires 0 <= i < |fields| => JString(fields[i].key)))
    case JString(s) => Ok(seq(|s|, i requires 0 <= i < |s| => JString([s[i]])))
    case _ => Raised(TypeError)
  }

  /** Python's `value.items()`: only a dict has it. */
  function Items(value: Json): (r: Outcome<seq<Field>>)
    ensures r.Ok? <==> value.JObject?
    ensures r.Ok? ==> r.value == value.fields
    ensures r.Raised? ==> r.exception == AttributeError
  {
    match value
    case JObject(fields) => Ok(fields)
    case _ => Raised(AttributeError)
  }
}
