/** The built-in validators. Each decides about one value: it returns `Pass` (Go's zero
    `ValidationErrorItem{}`) or an item carrying only a message; the engine fills in the field. */
module Validators {
  import opened Values
  import opened Text
  import opened Patterns
  import opened Calendar

  /** What a built-in validator may return: a pass, or a field-less item whose message is one
      of the validator's own. */
  predicate Verdict(r: ValidationErrorItem, messages: set<string>) {
    r == Pass || (r.field == "" && r.message != "" && r.message in messages)
  }

  const RequiredMessage := "Field is required"
  const InvalidFileMessage := "Invalid file format"

  // ---------------------------------------------------------------------------------------
  // Presence and length

  /** `RequiredValidation`: nil, "" and an empty slice or map are missing; anything else is present. */
  function RequiredValidation(value: Value): (r: ValidationErrorItem)
    ensures Verdict(r, {RequiredMessage})
  {
    if IsBlank(value) then Fail(RequiredMessage)
    else match value
      case Str(s) => if s == "" then Fail(RequiredMessage) else Pass
      case Coll(n) => if n == 0 then Fail(RequiredMessage) else Pass
      case _ => Pass
  }

  function MinLengthStringMessage(minLength: int): string {
    "Field must be at least " + FormatInt(minLength) + " characters long"
  }

  function MinLengthItemsMessage(minLength: int): string {
    "Field must have at least " + FormatInt(minLength) + " items"
  }

  /** The closure `MinLengthValidation(minLength)` returns: a string is measured in bytes, a slice
      or map by its length; other kinds pass. */
  function MinLength(minLength: int, value: Value): (r: ValidationErrorItem)
    ensures Verdict(r, {MinLengthStringMessage(minLength), MinLengthItemsMessage(minLength)})
  {
    if IsBlank(value) then Pass
    else match value
      case Str(s) => if ByteLen(s) < minLength then Fail(MinLengthStringMessage(minLength)) else Pass
      case Coll(n) => if n < minLength then Fail(MinLengthItemsMessage(minLength)) else Pass
      case _ => Pass
  }

  /** `MinLengthValidation(minLength)`: the factory; the validator it returns closes over the bound. */
  function MinLengthValidation(minLength: int): (f: Value -> ValidationErrorItem)
    ensures forall value :: f(value) == MinLength(minLength, value)
  {
    value => MinLength(minLength, value)
  }

  function MaxLengthStringMessage(maxLength: int): string {
    "Field must not exceed " + FormatInt(maxLength) + " characters"
  }

  function MaxLengthItemsMessage(maxLength: int): string {
    "Field must not have more than " + FormatInt(maxLength) + " items"
  }

  /** The closure `MaxLengthValidation(maxLength)` returns. */
  function MaxLength(maxLength: int, value: Value): (r: ValidationErrorItem)
    ensures Verdict(r, {MaxLengthStringMessage(maxLength), MaxLengthItemsMessage(maxLength)})
  {
    if IsBlank(value) then Pass
    else match value
      case Str(s) => if ByteLen(s) > maxLength then Fail(MaxLengthStringMessage(maxLength)) else Pass
      case Coll(n) => if n > maxLength then Fail(MaxLengthItemsMessage(maxLength)) else Pass
      case _ => Pass
  }

  /** `MaxLengthValidation(maxLength)` */
  function MaxLengthValidation(maxLength: int): (f: Value -> ValidationErrorItem)
    ensures forall value :: f(value) == MaxLength(maxLength, value)
  {
    value => MaxLength(maxLength, value)
  }

  // ---------------------------------------------------------------------------------------
  // Formats

  /** `EmailValidation`: a value that is not a string passes. */
  function EmailValidation(value: Value): (r: ValidationErrorItem)
    ensures Verdict(r, {"Field must be a valid email address"})
  {
    if IsBlank(value) || !value.Str? then Pass
    else if !MatchesEmail(value.s) then Fail("Field must be a valid email address")
    else Pass
  }

  /** `PhoneValidation`: asserts the value is a string without checking, so any other non-blank
      value would panic; the precondition excludes those. */
  function PhoneValidation(value: Value): (r: ValidationErrorItem)
    requires value.Absent? || value.Str?
    ensures Verdict(r, {"Invalid phone number format"})
  {
    if IsBlank(value) then Pass
    else if !MatchesPhone(value.s) then Fail("Invalid phone number format")
    else Pass
  }

  /** `URLValidation`; the pattern is a constant, so the regexp compile-error branch cannot occur. */
  function URLValidation(value: Value): (r: ValidationErrorItem)
    ensures Verdict(r, {"Value is not a string", "Value is not a valid URL"})
  {
    if IsBlank(value) then Pass
    else if !value.Str? then Fail("Value is not a string")
    else if !MatchesUrl(value.s) then Fail("Value is not a valid URL")
    else Pass
  }

  /** `StringValidation` */
  function StringValidation(value: Value): (r: ValidationErrorItem)
    ensures Verdict(r, {"Field must be a string"})
  {
    if IsBlank(value) || value.Str? then Pass else Fail("Field must be a string")
  }

  /** `NumericValidation`: integer kinds pass, strings must be all ASCII digits. */
  function NumericValidation(value: Value): (r: ValidationErrorItem)
    ensures Verdict(r, {"Field must be numeric"})
  {
    if IsBlank(value) then Pass
    else match value
      case Str(s) => if !MatchesDigits(s) then Fail("Field must be numeric") else Pass
      case Int(_) => Pass
      case Uint(_) => Pass
      case _ => Fail("Field must be numeric")
  }

  const DateMessages := {"Invalid date format", "Invalid date", "Invalid year", "Invalid month", "Invalid day"}

  /** `DateValidation`: shape first, then the calendar parse, then the range checks on the parsed
      year, month and day in that order. */
  function DateValidation(value: Value): (r: ValidationErrorItem)
    ensures Verdict(r, DateMessages)
  {
    if IsBlank(value) then Pass
    else if !value.Str? then Fail("Invalid date format")
    else if !MatchesDateShape(value.s) then Fail("Invalid date format")
    else match ParseDate(value.s)
      case None => Fail("Invalid date")
      case Some(date) =>
        if date.year < 1 || date.year > 9999 then Fail("Invalid year")
        else if date.month < 1 || date.month > 12 then Fail("Invalid month")
        else if date.day < 1 || date.day > 31 then Fail("Invalid day")
        else Pass
  }

  // ---------------------------------------------------------------------------------------
  // Uploaded files

  /** `ImageValidation` */
  function ImageValidation(value: Value): (r: ValidationErrorItem)
    ensures Verdict(r, {InvalidFileMessage, "File must be an image"})
  {
    if IsBlank(value) then Pass
    else if !value.File? then Fail(InvalidFileMessage)
    else if !HasPrefix(value.contentType, "image/") then Fail("File must be an image")
    else Pass
  }

  function FileSizeMessage(maxSize: int): string {
    "File size must be less than " + FormatInt(maxSize) + " bytes"
  }

  /** The closure `FileSizeValidation(maxSize)` returns. */
  function FileSize(maxSize: int, value: Value): (r: ValidationErrorItem)
    ensures Verdict(r, {InvalidFileMessage, FileSizeMessage(maxSize)})
  {
    if IsBlank(value) then Pass
    else if !value.File? then Fail(InvalidFileMessage)
    else if value.size > maxSize then Fail(FileSizeMessage(maxSize))
    else Pass
  }

  /** `FileSizeValidation(maxSize)` */
  function FileSizeValidation(maxSize: int): (f: Value -> ValidationErrorItem)
    ensures forall value :: f(value) == FileSize(maxSize, value)
  {
    value => FileSize(maxSize, value)
  }

  /** `contains`: linear search of a list of strings. */
  method Contains(s: seq<string>, e: string) returns (found: bool)
    ensures found <==> e in s
  {
    for i := 0 to |s|
      invariant forall j | 0 <= j < i :: s[j] != e
    {
      if s[i] == e {
        return true;
      }
    }
    return false;
  }

  const AllowedMimeTypes: seq<string> := ["image/png", "image/jpg", "image/jpeg", "image/svg+xml"]

  /** `ImageMimeValidation`: the Content-Type must equal one of four image types exactly. The
      source's `contains(allowedMimeTypes, t)` is written `t in AllowedMimeTypes`, which is what
      `Contains` computes. */
  function ImageMimeValidation(value: Value): (r: ValidationErrorItem)
    ensures Verdict(r, {InvalidFileMessage, "File must be a PNG, JPG, JPEG or SVG"})
  {
    if IsBlank(value) then Pass
    else if !value.File? then Fail(InvalidFileMessage)
    else if value.contentType !in AllowedMimeTypes then Fail("File must be a PNG, JPG, JPEG or SVG")
    else Pass
  }

  /** `FileValidation` */
  function FileValidation(value: Value): (r: ValidationErrorItem)
    ensures Verdict(r, {InvalidFileMessage})
  {
    if IsBlank(value) || value.File? then Pass else Fail(InvalidFileMessage)
  }

  /** The type FileTypeValidation compares: the Content-Type with a leading "application/" (matched
      case-sensitively) removed, then lower-cased. */
  function NormalizedFileType(contentType: string): string {
    ToLower(TrimPrefix(contentType, "application/"))
  }

  /** `FileTypeValidation(value, validTypes)`: not a factory; the allowed types are a second
      argument. The source's `contains(validTypes, t)` is written `t in validTypes`, which is what
      `Contains` computes. */
  function FileTypeValidation(value: Value, validTypes: seq<string>): (r: ValidationErrorItem)
    ensures Verdict(r, {InvalidFileMessage, "File type is not allowed"})
  {
    if IsBlank(value) then Pass
    else if !value.File? then Fail(InvalidFileMessage)
    else if NormalizedFileType(value.contentType) !in validTypes then Fail("File type is not allowed")
    else Pass
  }
}
