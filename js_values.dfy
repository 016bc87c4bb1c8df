/** The JavaScript values that reach the registration handler, and the two
    pieces of JavaScript semantics the form normaliser relies on: reading an
    element of a value with `v[i]`, and truthiness. */
module JsValues {
  import opened DecimalText
  import opened Errors

  /** A form field as the upload parser leaves it in `req.body`: not sent
      (`undefined`), sent once (a string), or sent several times (an array
      of strings). */
  datatype Raw = Absent | Scalar(s: string) | Many(items: seq<string>)

  datatype Option<+T> = None | Some(value: T)

  datatype Result<+T, +E> = Ok(value: T) | Err(error: E)

  /** JavaScript's `v[i]`: an element of an array, a one-character string of
      a string, `undefined` past the end, and a TypeError on `undefined`. */
  function Index(v: Raw, i: nat): (r: Result<Raw, Error>)
    ensures r.Err? <==> v.Absent?
    ensures r.Err? ==> r.error == ReadOfUndefined(Decimal(i))
    ensures v.Many? ==> (i < |v.items| ==> r == Ok(Scalar(v.items[i]))) && (i >= |v.items| ==> r == Ok(Absent))
    ensures v.Scalar? ==> (r.value == Absent <==> i >= |v.s|) &&
                          (i < |v.s| ==> r.value.Scalar? && |r.value.s| == 1 && r.value.s[0] == v.s[i])
  {
    match v
    case Absent => Err(ReadOfUndefined(Decimal(i)))
    case Scalar(s) => Ok(if i < |s| then Scalar([s[i]]) else Absent)
    case Many(xs) => Ok(if i < |xs| then Scalar(xs[i]) else Absent)
  }

  /** JavaScript truthiness of a form value: `undefined` and the empty string
      are falsy, every other string and every array are truthy. */
  predicate Truthy(v: Raw)
  {
    match v
    case Absent => false
    case Scalar(s) => s != ""
    case Many(_) => true
  }
}
