/** The parsed JSON the RO-Crate reader and writer work on, and the few pieces
    of Python semantics the reader relies on: `dict.get`, truthiness and
    raised exceptions. */
module Json {

  import opened Strings

  datatype Option<+T> = None | Some(value: T)

  /** A parsed JSON value. Numbers are integers; an object is a map from keys
      to values (key order does not matter to the reader). */
  datatype JValue =
    | JNull
    | JBool(b: bool)
    | JNum(n: int)
    | JStr(s: string)
    | JArr(items: seq<JValue>)
    | JObj(fields: Node)

  /** A node of the `@graph`: a JSON object. */
  type Node = map<string, JValue>

  /** The Python exceptions the modelled code can raise. */
  datatype PyError =
    | TypeError        // wrong operand type: `None['@id']`, `'x' + 5`, `'@id' in 5`
    | AttributeError   // `.get` on something that is not a dict, e.g. on None
    | KeyError         // `d['@id']` on a dict without that key
    | IndexError       // list index out of range, or raised explicitly
    | ValueError       // `list.index` of a missing value, or raised explicitly
    | NoRoCrateLoaded  // the plain `Exception("No ROCrate loaded")`

  /** Either the value a Python call returns or the exception it raises. */
  datatype Outcome<+T> = Ok(value: T) | Raised(error: PyError)
  {
    predicate IsFailure() { Raised? }

    function PropagateFailure<U>(): Outcome<U>
      requires Raised?
    {
      Raised(error)
    }

    function Extract(): T
      requires Ok?
    {
      value
    }
  }

  /** `node.get(key)`: a missing key reads as None, exactly like a JSON null. */
  function Get(node: Node, key: string): JValue
  {
    if key in node then node[key] else JNull
  }

  /** Python truthiness of a JSON value. */
  predicate Truthy(v: JValue)
  {
    match v
    case JNull => false
    case JBool(b) => b
    case JNum(n) => n != 0
    case JStr(s) => s != ""
    case JArr(items) => items != []
    case JObj(fields) => fields != map[]
  }

  /** Truthiness of a lookup result: None, or a found but empty dict, is false. */
  predicate FoundTruthy(o: Option<Node>)
  {
    o.Some? && o.value != map[]
  }

  /** The link test the reader applies to `hasPart`, `instrument` and
      `creator`: `if link and '@id' in link:` followed by `link['@id']`.
      `Ok(None)` means the test failed; `Ok(Some(id))` is the target id.
      `'@id' in link` is a substring test on a string and a membership test on
      a list; in both cases a success is followed by an indexing that raises,
      and on a number or a boolean the `in` itself raises. */
  function LinkedId(link: JValue): (r: Outcome<Option<JValue>>)
    ensures r == Ok(None) <==>
      !Truthy(link) ||
      (link.JObj? && "@id" !in link.fields) ||
      (link.JArr? && JStr("@id") !in link.items) ||
      (link.JStr? && link.s != "" && !Contains(link.s, "@id"))
    ensures r.Ok? && r.value.Some? <==> link.JObj? && "@id" in link.fields
    ensures r.Ok? && r.value.Some? ==> r.value.value == link.fields["@id"]
  {
    if !Truthy(link) then Ok(None)
    else match link
      case JObj(fields) => if "@id" in fields then Ok(Some(fields["@id"])) else Ok(None)
      case JArr(items) => if JStr("@id") in items then Raised(TypeError) else Ok(None)
      case JStr(s) => if Contains(s, "@id") then Raised(TypeError) else Ok(None)
      case _ => Raised(TypeError)
  }
}
