/** The values the validation library passes around: Go's `interface{}` reduced to the kinds
    the validators tell apart, the error item, and the validator function type. */
module Values {

  datatype Option<T> = None | Some(value: T)

  /** Go's `(value, error)` pair: either a value or the error's text. */
  datatype Result<T> = Ok(value: T) | Err(error: string)

  /** A Go `interface{}` as the validators see it through `reflect` and type assertions. */
  datatype Value =
    | Absent                                 // the nil interface
    | Str(s: string)                         // kind String
    | Int(i: int)                            // kinds Int, Int8, Int16, Int32, Int64
    | Uint(u: nat)                           // kinds Uint, Uint8, Uint16, Uint32, Uint64
    | Coll(len: nat)                         // kinds Slice and Map, with their Len()
    | File(contentType: string, size: int)   // a *multipart.FileHeader: Content-Type header and Size
    | Other                                  // every other kind: floats, bools, arrays, structs, ...

  /** `ValidationErrorItem`; its zero value (both strings empty) means "no error". */
  datatype ValidationErrorItem = ValidationErrorItem(field: string, message: string)

  /** `ValidationErrorItem{}` */
  const Pass := ValidationErrorItem("", "")

  /** `ValidationErrorItem{Message: message}`, which every built-in validator returns on failure. */
  function Fail(message: string): (r: ValidationErrorItem)
    ensures r.field == "" && r.message == message
    ensures r != Pass <==> message != ""
  {
    ValidationErrorItem("", message)
  }

  /** `func(interface{}) ValidationErrorItem`; partial, because a validator may panic on some
      values (PhoneValidation's unchecked type assertion), which its precondition rules out. */
  type ValidationFunc = Value --> ValidationErrorItem

  /** The guard `value == nil || value == ""` that opens every validator. */
  predicate IsBlank(value: Value) {
    value == Absent || value == Str("")
  }
}
