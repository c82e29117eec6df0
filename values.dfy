/** Value wrappers shared by the whole model: SQL NULL and the three states of a
    JSON object member (absent key, explicit null, present value). */
module Values {

  /** A nullable column or an optional lookup result; None is SQL NULL / Python None. */
  datatype Option<+T> = None | Some(value: T)

  /** A member of a decoded JSON object: the key may be absent, present with null,
      or present with a value. `dict[key]` fails on Missing; `dict.get(key)` gives
      None for both Missing and Null. */
  datatype Json<+T> = Missing | Null | Present(value: T)

  /** `dict.get(key)`: absent and null both read as None. */
  function Get<T>(j: Json<T>): (r: Option<T>)
    ensures r.Some? <==> j.Present?
    ensures r.Some? ==> r.value == j.value
  {
    match j
    case Present(v) => Some(v)
    case _ => None
  }
}
