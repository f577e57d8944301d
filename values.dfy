/** The data the scripts pass around: what `yaml.safe_load` and the inventory
    code produce (None, booleans, integers, strings, lists and dicts), and the
    Python operations on it that can raise. */
module Values {
  import opened Dicts
  import Text

  datatype Value =
    | Null
    | Bool(b: bool)
    | Int(i: int)
    | Str(s: string)
    | List(items: seq<Value>)
    | Obj(fields: Dict<string, Value>)

  /** The exceptions that data of an unexpected shape raises. */
  datatype PyError =
    | TypeError(detail: string)
    | AttributeError(detail: string)
    | KeyError(key: string)

  datatype Result<T> = Ok(value: T) | Err(error: PyError)
  {
    predicate IsFailure() { Err? }

    function PropagateFailure<U>(): Result<U>
      requires Err?
    {
      Err(error)
    }

    function Extract(): T
      requires Ok?
    {
      value
    }
  }

  datatype Option<T> = None | Some(value: T)

  /** Python's name for the type of `v`, as error messages print it. */
  function TypeName(v: Value): string
  {
    match v
    case Null => "NoneType"
    case Bool(_) => "bool"
    case Int(_) => "int"
    case Str(_) => "str"
    case List(_) => "list"
    case Obj(_) => "dict"
  }

  /** `key in container` for a string key: a key of a dict, an element of a
      list, a substring of a string; anything else raises TypeError. */
  function In(key: string, container: Value): (r: Result<bool>)
    ensures r.Ok? <==> container.Obj? || container.List? || container.Str?
    ensures container.Obj? ==> r == Ok(key in Keys(container.fields))
    ensures container.List? ==> r == Ok(Str(key) in container.items)
  {
    match container
    case Obj(fs) => Ok(key in Keys(fs))
    case List(xs) => Ok(Str(key) in xs)
    case Str(s) => Ok(Text.ContainsSubstring(s, key))
    case _ => Err(TypeError("argument of type '" + TypeName(container) + "' is not iterable"))
  }

  /** `container[key]` for a string key: only a dict that has the key
      answers; the TypeError carries Python's message for the container's
      type. */
  function Index(container: Value, key: string): (r: Result<Value>)
    ensures r.Ok? <==> container.Obj? && key in Keys(container.fields)
    ensures r.Ok? ==> r.value == Get(container.fields, key)
    ensures container.Obj? && key !in Keys(container.fields) ==> r == Err(KeyError(key))
    ensures !container.Obj? ==> r.Err? && r.error.TypeError?
  {
    match container
    case Obj(fs) => if key in Keys(fs) then Ok(Get(fs, key)) else Err(KeyError(key))
    case List(_) => Err(TypeError("list indices must be integers or slices, not str"))
    case Str(_) => Err(TypeError("string indices must be integers, not 'str'"))
    case _ => Err(TypeError("'" + TypeName(container) + "' object is not subscriptable"))
  }

  /** `v.copy()`: dicts and lists copy (shallowly, so the copy equals the
      original); other values have no `copy` attribute. */
  function Copy(v: Value): (r: Result<Value>)
    ensures r.Ok? <==> v.Obj? || v.List?
    ensures r.Ok? ==> r.value == v
  {
    if v.Obj? || v.List? then Ok(v)
    else Err(AttributeError("'" + TypeName(v) + "' object has no attribute 'copy'"))
  }

  /** A list of strings, as the inventory code builds host and group lists. */
  function StrList(xs: seq<string>): (v: Value)
    ensures v.List? && |v.items| == |xs|
    ensures forall i :: 0 <= i < |xs| ==> v.items[i] == Str(xs[i])
  {
    List(seq(|xs|, i requires 0 <= i < |xs| => Str(xs[i])))
  }
}
