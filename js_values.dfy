/** The JavaScript values that flow through the props provider, classified the
    way `render` and `validate` tell them apart: by truthiness, `Array.isArray`,
    `React.isValidElement` and `typeof`. */
module JsValues {

  datatype Option<+T> = None | Some(value: T)

  datatype Result<+T, +E> = Ok(value: T) | Err(error: E)

  /** What `typeof` reports for a truthy value that is neither an array, nor a
      React element, nor a function. */
  datatype Kind = String | Number | Boolean | Object | Symbol | BigInt

  /** A function value is an opaque closure; the model names it by identity and
      receives its behaviour from the caller (see `Caller`). */
  type FunctionId = nat

  /** A property bag: property name to value. React never stores `key` in it,
      the key travels beside it. */
  type Props = map<string, Value>

  /** A React element: its own property bag and the key it was created with
      (`null` when none was given). */
  datatype ReactElement = ReactElement(props: Props, key: Option<string>)

  datatype Value =
    | Falsy                           // false, null, undefined, 0, -0, 0n, NaN, ""
    | Array(items: seq<Value>)
    | Element(element: ReactElement)
    | Function(id: FunctionId)
    | Other(kind: Kind)               // any other truthy value, by its `typeof` kind

  /** What calling a child function with a property bag yields: exactly one
      React element. */
  type Caller = (FunctionId, Props) -> ReactElement

  /** The rendered tree. `Blank` is a falsy child handed back as it was;
      `Group` is the keyed `<div>` that wraps a rendered array; `Clone` is a
      cloned React element with its final props and key. */
  datatype Out =
    | Blank
    | Group(key: string, kids: seq<Out>)
    | Clone(props: Props, key: string)

  /** The key a rendered output carries, if any. */
  function KeyOf(o: Out): Option<string>
  {
    match o
    case Blank => None
    case Group(key, _) => Some(key)
    case Clone(_, key) => Some(key)
  }
}
