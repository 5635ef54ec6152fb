# validation — a Dafny model

This project models the Go package `validation` (JubaerHossain/validation), a small rule-based
validator for request data:

- `Validate(data, rules)` walks a list of `ValidationRule`s in order.
- For each rule it looks up the struct field whose `json` tag equals the rule's `Field`, following
  pointers first.
- If no field matches, or the field holds nil, it appends one item
  `{Field, "field not found: <name>"}` and skips that rule's validators.
- Otherwise it runs every validator of the rule, in order and without short-circuiting, and appends
  each non-zero result with its `Field` overwritten by the rule's field.
- A validator is a function from `interface{}` to `ValidationErrorItem`; the zero item means "valid".

The fourteen built-in validators and validator factories are modelled one by one, with the exact
message strings of the code:

- Required, MinLength, MaxLength.
- Email, Phone, URL: their anchored regular expressions are written out as predicates.
- String, Numeric.
- Date: the regular expression, then Go's `time.Parse("2006-01-02", …)`, then the year, month and
  day range checks.
- The five file validators: Image, FileSize, ImageMime, File, FileType.

Module layout:

| module | file | contents |
|---|---|---|
| `Values` | values.dfy | `Value` (Go's `interface{}` reduced to the kinds the validators distinguish), `ValidationErrorItem`, `ValidationFunc` |
| `Text` | text.dfy | Go's `len` on strings (UTF-8 bytes), `%d` formatting, `strings.HasPrefix/TrimPrefix/ToLower` |
| `Patterns` | patterns.dfy | the regular expressions as predicates over strings |
| `Calendar` | calendar.dfy | `time.Parse` with layout `2006-01-02` on a string of the right shape |
| `Validators` | validators.dfy | the built-in validators and `contains` |
| `ValidatorLemmas` | validator_lemmas.dfy | what each validator accepts and rejects |
| `Resolver` | resolver.dfy | `getFieldByJsonTag` and `getField` |
| `Engine` | engine.dfy | `Validate`, its specification function `Errors`, and lemmas about the output |
| `Scenarios` | scenarios.dfy | the demo program's `ValidateUser` and rule sets of the same shape |

Notable behaviours of the code that the model keeps:

- The messages are the exact strings of the code, e.g. "Field is required".
- `MinLengthValidation` passes on `""` (validation.go:107-109). So a record of two empty strings
  under required, min and max rules yields exactly two "Field is required" items
  (`Scenarios.EmptyRecordScenario`).
- `URLValidation` fails a present non-string with "Value is not a string", while
  `EmailValidation` lets every non-string through.
- `getField` reports a matched field whose value is the nil interface as "field not found".
- Lengths of strings are Go byte counts, not character counts.

## Model

| member | source | states |
|---|---|---|
| Engine.Validate | validation.go:25-48 | the nested loops return exactly `Errors(data, rules)`: per rule either the resolver's error alone or every failing validator's item, stamped with the rule's field, in rule order and validator order |
| Engine.RunRule | validation.go:38-44 | the inner loop returns exactly `RunValidations`: each non-zero validator result, in validator order, stamped with the rule's field |
| Engine.Stamp | validation.go:39-43 | a zero result adds nothing; any other result adds exactly one item whose field is the rule's and whose message is the validator's |
| Engine.ErrorsAppend | validation.go:28-45 | rule order is output order: the items for `r1 + r2` are r1's items followed by r2's |
| Engine.ErrorsSnoc | validation.go:28-45 | one more rule appends exactly that rule's items to the output |
| Engine.ErrorsStep | validation.go:28-45 | the items of the first k+1 rules are those of the first k, then rule k's |
| Engine.RunValidationsSnoc | validation.go:38-44 | one more validator appends exactly its stamped result |
| Engine.RunValidationsAppend | validation.go:38-44 | validator order is output order within a rule |
| Engine.RunThree | validation.go:38-44 | three validators yield the first's item, then the second's, then the third's |
| Engine.CollectsEveryFailureInOrder | validation.go:38-44 | no short-circuit: with the first and third validator failing and the second passing, both failures appear, in order, under the rule's field |
| Engine.RunValidationsStamped | validation.go:41 | a rule yields at most one item per validator, and every item carries the rule's field |
| Engine.RunValidationsEmpty | validation.go:40 | a resolved rule yields nothing exactly when every validator returns the zero item |
| Engine.RuleErrorsEmpty | validation.go:29-44 | one rule contributes nothing exactly when its field resolves and all its validators pass |
| Engine.RuleErrorsStamped | validation.go:31-42 | every item of one rule, error or failure, carries that rule's field |
| Engine.ErrorsEmptyIffAllPass | validation.go:25-48 | the result is empty exactly when every rule resolves and passes |
| Engine.ErrorsNameRuleFields | validation.go:31-42 | every item names the field of one of the rules |
| Engine.UnresolvedRuleYieldsOneItem | validation.go:29-36 | an unresolvable rule contributes exactly `{field, "field not found: field"}` at its position |
| Engine.UnresolvedRuleIgnoresValidators | validation.go:30-36 | the validators of an unresolvable rule never run: replacing them leaves the output unchanged |
| Engine.ApplicableSplit | validation.go:28 | the no-panic condition on a rule list holds for a concatenation exactly when it holds for both parts |
| Resolver.GetFieldByJsonTag | validation.go:59-78 | the loops return the value of the first field whose tag equals the name after following pointers, and nil for a non-struct or when no tag matches |
| Resolver.GetField | validation.go:50-57 | success carries a non-nil value; failure is the error "field not found: <name>" |
| Resolver.FieldWithTagIsFirstMatch | validation.go:69-75 | the lookup returns the first matching field's value, and nil when no tag matches |
| Resolver.ResolveFieldSpec | validation.go:50-78 | resolution yields v exactly when the dereferenced data is a struct whose first field tagged with the name holds the non-nil v |
| Resolver.FirstTagIndex | validation.go:69-75 | a found value sits at the first index carrying the tag |
| Resolver.PointersAreTransparent | validation.go:60-67 | a pointer resolves like its target; a nil pointer or a non-struct resolves nothing |
| Resolver.Deref | validation.go:61-63 | the pointer loop ends on a non-pointer |
| Validators.Contains | validation.go:360-367 | the linear search returns true exactly when the string is in the list |
| Validators.RequiredValidation | validation.go:80-103 | returns the zero item or a field-less "Field is required" |
| Validators.MinLength | validation.go:105-128 | returns the zero item or a field-less item with one of the two minimum-length messages for the bound |
| Validators.MinLengthValidation | validation.go:105-107 | the returned closure behaves as `MinLength` with the captured bound on every value |
| Validators.MaxLength | validation.go:130-153 | returns the zero item or a field-less item with one of the two maximum-length messages for the bound |
| Validators.MaxLengthValidation | validation.go:130-132 | the returned closure behaves as `MaxLength` with the captured bound on every value |
| Validators.EmailValidation | validation.go:155-173 | returns the zero item or a field-less "Field must be a valid email address" |
| Validators.PhoneValidation | validation.go:175-187 | returns the zero item or a field-less "Invalid phone number format" |
| Validators.URLValidation | validation.go:189-217 | returns the zero item or a field-less "Value is not a string" or "Value is not a valid URL" |
| Validators.StringValidation | validation.go:219-234 | returns the zero item or a field-less "Field must be a string" |
| Validators.NumericValidation | validation.go:236-260 | returns the zero item or a field-less "Field must be numeric" |
| Validators.DateValidation | validation.go:262-312 | returns the zero item or a field-less item with one of the five date messages |
| Validators.ImageValidation | validation.go:314-335 | returns the zero item or a field-less "Invalid file format" or "File must be an image" |
| Validators.FileSize | validation.go:338-358 | returns the zero item or a field-less "Invalid file format" or the size message for the bound |
| Validators.FileSizeValidation | validation.go:337-339 | the returned closure behaves as `FileSize` with the captured bound on every value |
| Validators.ImageMimeValidation | validation.go:368-391 | returns the zero item or a field-less "Invalid file format" or "File must be a PNG, JPG, JPEG or SVG" |
| Validators.FileValidation | validation.go:393-407 | returns the zero item or a field-less "Invalid file format" |
| Validators.FileTypeValidation | validation.go:409-431 | returns the zero item or a field-less "Invalid file format" or "File type is not allowed" |
| ValidatorLemmas.BlankPassesAllButRequired | validation.go:81-82 | on nil or "" RequiredValidation fails and every other validator passes |
| ValidatorLemmas.RequiredFailsExactlyOnEmpty | validation.go:80-103 | RequiredValidation fails exactly on nil, "" and an empty slice or map; a zero number is present |
| ValidatorLemmas.LengthWindow | validation.go:105-153 | a non-empty string or collection passes MinLength(lo) and MaxLength(hi) exactly when its length lies in lo..hi inclusive; other kinds pass both |
| ValidatorLemmas.LengthBoundsMonotone | validation.go:105-153 | loosening a bound never turns a pass into a failure |
| ValidatorLemmas.LengthCountsBytes | validation.go:111-113 | on ASCII strings the bound compares the character count; "é" counts two bytes and passes MinLength(2) |
| ValidatorLemmas.LengthMessagesByKind | validation.go:105-153 | a slice or map fails MinLength/MaxLength exactly when its length breaks the bound, with the "items" message; a non-empty string exactly when its byte length does, with the "characters" message |
| ValidatorLemmas.MessagesDistinguishBounds | validation.go:115-146 | distinct bounds give distinct messages, for all five `%d` messages (the bound is spelled out in full) |
| ValidatorLemmas.LengthMessagesShowBound | validation.go:113-147 | a short string fails MinLength(3) with "Field must be at least 3 characters long"; 51 items fail MaxLength(50) with "Field must not have more than 50 items" |
| ValidatorLemmas.MinLengthMessageOfThree | validation.go:113-115 | the minimum-length message for 3 is "Field must be at least 3 characters long" |
| ValidatorLemmas.MaxLengthItemsMessageOfFifty | validation.go:145-147 | the maximum-items message for 50 is "Field must not have more than 50 items" |
| ValidatorLemmas.FileAcceptsExactlyFiles | validation.go:393-407 | FileValidation passes exactly nil, "" and uploaded files |
| ValidatorLemmas.StringAcceptsOnlyStrings | validation.go:219-234 | StringValidation passes exactly nil and strings |
| ValidatorLemmas.NumericAcceptsIntegersAndDigitStrings | validation.go:236-260 | NumericValidation passes exactly nil, `""`, integer kinds and non-empty strings of ASCII digits |
| ValidatorLemmas.NumericRejectsSignsAndSeparators | validation.go:243-248 | "-1", "1.5" and "1,000" are not numeric; "123456" is |
| ValidatorLemmas.PhoneAcceptsE164 | validation.go:175-187 | a string passes exactly when it is "" or '+', a digit 1-9 and 1 to 14 more digits |
| ValidatorLemmas.PhoneExamples | validation.go:179-184 | "+8801712345678" passes; "+0123", "+1" and a 17-character number fail |
| ValidatorLemmas.EmailIgnoresNonStrings | validation.go:160-163 | EmailValidation lets every non-string through |
| ValidatorLemmas.EmailAcceptsShortAddress | validation.go:165-172 | "a@b.co" is a valid address |
| ValidatorLemmas.EmailAcceptsParts | validation.go:165-172 | a non-empty local part, '@', a non-empty domain, '.', and a top-level label of two or more ASCII letters always pass |
| ValidatorLemmas.EmailRequiresAt | validation.go:165-170 | every present string without '@' fails with the email message |
| ValidatorLemmas.EmailRejectsMissingAt | validation.go:165-170 | "not-an-email" fails with the email message |
| ValidatorLemmas.EmailRejectsOneLetterLabel | validation.go:165-170 | every string whose last '.' is followed by a single character fails with the email message: the top-level label needs two letters |
| ValidatorLemmas.EmailRejectsShortTopLabel | validation.go:165-170 | for instance "a@b.c" fails with the email message |
| ValidatorLemmas.URLRejectsNonStrings | validation.go:194-199 | a present non-string fails with "Value is not a string" |
| ValidatorLemmas.URLAcceptsSchemeHostPath | validation.go:202-216 | "http://" or "https://", then a dotted host, then a URL path (possibly empty) always passes |
| ValidatorLemmas.URLAcceptsHostAndPath | validation.go:202-216 | "https://example.com/a?b=c" is a valid URL |
| ValidatorLemmas.URLRejectsUndottedHost | validation.go:202-214 | "http://localhost" is not a valid URL: the host needs a dot |
| ValidatorLemmas.URLRequiresHttpScheme | validation.go:202-214 | every present string that starts with neither "http://" nor "https://" fails with "Value is not a valid URL" |
| ValidatorLemmas.URLRejectsOtherSchemes | validation.go:202-214 | for instance "ftp://example.com" fails with "Value is not a valid URL" |
| ValidatorLemmas.DatePassesExactlyRealDates | validation.go:262-312 | a non-empty string passes exactly when it is shaped dddd-dd-dd, names a real Gregorian date and its year is not 0000 |
| ValidatorLemmas.DateLaterChecksUnreachable | validation.go:295-309 | "Invalid month" and "Invalid day" never occur; "Invalid year" occurs exactly for a parsed year 0000 |
| ValidatorLemmas.DateMessageForShapeAndCalendar | validation.go:268-293 | "Invalid date format" exactly for a present value that is not a string shaped dddd-dd-dd; "Invalid date" exactly for such a string that is not a calendar date |
| ValidatorLemmas.DateRejectsFebruary30 | validation.go:287-293 | "2023-02-30" fails the calendar parse although it matches the shape |
| ValidatorLemmas.DateAcceptsLeapDay | validation.go:287-293 | "2024-02-29" passes: 2024 is a leap year |
| ValidatorLemmas.DateAcceptsCenturyLeapDay | validation.go:287-293 | "2000-02-29" passes: 2000 is divisible by 400 |
| ValidatorLemmas.DateRejectsCommonYearLeapDay | validation.go:287-293 | "2023-02-29" fails with "Invalid date" |
| ValidatorLemmas.DateRejectsCenturyLeapDay | validation.go:287-293 | "1900-02-29" fails with "Invalid date": 1900 is divisible by 100 but not by 400 |
| ValidatorLemmas.DateRejectsDay31OfApril | validation.go:287-293 | "2023-04-31" fails with "Invalid date" |
| ValidatorLemmas.DateRejectsMonth13 | validation.go:287-293 | "2023-13-01" fails with "Invalid date" |
| ValidatorLemmas.DateRejectsYearZero | validation.go:295-299 | "0000-01-01" parses but fails with "Invalid year" |
| ValidatorLemmas.DateRejectsBadShape | validation.go:268-285 | for instance "2023/01/01" and an integer fail with "Invalid date format" |
| ValidatorLemmas.FileValidatorsRejectNonFiles | validation.go:320-420 | every file validator fails a present non-file with "Invalid file format" |
| ValidatorLemmas.FileSizeLimitInclusive | validation.go:350-356 | a file passes exactly when its size is at most the bound; a larger one gets the size message for that bound |
| ValidatorLemmas.FileSizeExample | validation.go:350-356 | 1500 bytes against a 1000-byte limit fails with "File size must be less than 1000 bytes" |
| ValidatorLemmas.FileSizeMessageOfThousand | validation.go:352-354 | the size message for 1000 is "File size must be less than 1000 bytes" |
| ValidatorLemmas.ImageTypesAccepted | validation.go:314-391 | ImageValidation passes a file exactly when its type starts with "image/"; ImageMimeValidation exactly when it is "image/png", "image/jpg", "image/jpeg" or "image/svg+xml" |
| ValidatorLemmas.ImageMimeImpliesImage | validation.go:368-391 | whatever passes ImageMimeValidation passes ImageValidation; "image/gif" passes the latter only |
| ValidatorLemmas.FileTypeComparesNormalizedType | validation.go:423-428 | a file passes exactly when its normalised type is allowed; after "application/" the comparison is the lower-cased rest |
| ValidatorLemmas.FileTypeLowerCaseComparedAsWritten | validation.go:423-428 | a lower-case type without the "application/" prefix normalises to itself, so it passes exactly when it is in the list |
| ValidatorLemmas.FileTypeUpperCaseEntriesNeverMatch | validation.go:423-428 | the normalised type has no upper-case letter, so allowed types each written with one (e.g. "PDF") reject every upload |
| ValidatorLemmas.FileTypeStripsLowerCasePrefix | validation.go:423 | "application/PDF" normalises to "pdf" |
| ValidatorLemmas.FileTypeKeepsUpperCasePrefix | validation.go:423 | an upper-case "APPLICATION/" is not stripped: the whole type is lower-cased, prefix included, keeps its twelve prefix characters and starts with 'a' |
| ValidatorLemmas.FileTypeUpperCaseExample | validation.go:423 | "APPLICATION/PDF" does not normalise to "pdf" |
| ValidatorLemmas.FileTypeUpperCasePrefixRejected | validation.go:423-428 | a type written "APPLICATION/…" is rejected by any allowed list of types shorter than twelve characters, such as ["pdf"] |
| Patterns.MatchesDigits | validation.go:243 | `^[0-9]+$` as a predicate: one or more ASCII digits |
| Patterns.MatchesPhone | validation.go:179 | `^\+[1-9]\d{1,14}$` as a predicate: '+', a digit 1-9, then 1 to 14 digits |
| Patterns.MatchesDateShape | validation.go:275 | `^\d{4}-\d{2}-\d{2}$` as a predicate: four digits, '-', two digits, '-', two digits |
| Patterns.MatchesEmail | validation.go:165 | the email pattern as a predicate: a non-empty local part of its allowed characters, '@', a non-empty domain, '.', and at least two ASCII letters |
| Patterns.MatchesUrl | validation.go:202 | the URL pattern as a predicate: "http://" or "https://", two or more dot-joined host labels, then an optional path ending in one of the allowed end characters |
| Calendar.ParseDate | validation.go:287 | a successful parse has a month in 1..12 and a day in 1..31 |
| Calendar.ParseDateIsCalendar | validation.go:287-293 | the parse succeeds exactly on real calendar dates and then returns the written fields |
| Calendar.YearZeroIffZeros | validation.go:295 | the parsed year is 0 exactly when the year digits are "0000" |
| Calendar.DaysInIsMonthLength | validation.go:287 | Go's cumulative month table gives each month its calendar length |
| Text.ByteLenBounds | validation.go:111-113 | a string takes 1 to 4 bytes per character, and exactly one per character when it is ASCII |
| Text.FormatInt | validation.go:115 | `%d` is non-empty and starts with '-' exactly for negatives |
| Text.FormatNat | validation.go:115 | `%d` of a natural is a non-empty digit string, one digit exactly below 10, never with a leading zero |
| Text.FormatNatInjective | validation.go:115 | distinct naturals have distinct decimal forms |
| Text.FormatIntInjective | validation.go:115 | distinct numbers have distinct `%d` forms |
| Text.FormatNatRoundTrip | validation.go:115 | reading the formatted digits back gives the number |
| Text.TrimPrefix | validation.go:423 | with the prefix present, prefix + result is the input; otherwise the input is unchanged |
| Text.ToLowerAppend | validation.go:423 | lower-casing distributes over concatenation |
| Text.ToLowerKeepsLowerCase | validation.go:423 | a string without upper-case ASCII letters is unchanged by lower-casing |
| Text.ToLowerIdempotent | validation.go:423 | lower-casing keeps the length, leaves no upper-case ASCII letter and is idempotent |
| Scenarios.TextRuleItems | example/main.go:36-40 | a required/min/max rule on a string yields "required" alone for "", else one item per broken bound |
| Scenarios.TwoRuleErrors | validation.go:28-45 | two rules give the first rule's items then the second's |
| Scenarios.TaggedUserErrors | example/main.go:32-53 | with fields tagged "name" and "password", each field is judged on its own bounds |
| Scenarios.DemoUserErrors | example/main.go:9-55 | for the demo's `User` (name tagged "first_name") the output always starts with `{name, "field not found: name"}`, followed by the password's items |
| Scenarios.ValidateUser | example/main.go:30-55 | the demo's `ValidateUser` returns that list for any user |
| Scenarios.DemoYieldsOnlyTheNameItem | example/main.go:16-20 | John with password "123456" yields exactly `[{name, "field not found: name"}]` |
| Scenarios.SixDigitPasswordPasses | example/main.go:43-48 | "123456" breaks neither the required check nor the 6..50 byte bounds |
| Scenarios.TwoLetterNameTooShort | validation.go:111-116 | "Jo" yields exactly the minimum-length item for 3 under the name field |
| Scenarios.ShortNameScenario | validation.go:105-128 | a record `{name: "Jo", password: "123456"}` yields only "Field must be at least 3 characters long" for name |
| Scenarios.EmptyRecordScenario | validation.go:80-128 | a record of two empty strings yields one "Field is required" item per field and nothing else |

## Left out

- Reflection is replaced by a closed `Value` datatype (nil, string, signed and unsigned integer
  kinds, slice or map with its length, uploaded file, every other kind).
- `Str` stands only for Go's type `string`; values of a named string type are not modelled. Go
  dispatches on their kind but asserts the type `string`, so such a value would panic in
  Required (validation.go:89), MinLength (113), MaxLength (138), Phone (180) and Numeric (243).
  URL (194) and Date (268) would reject it as a non-string, and Email (160) would let it through.
  Go's `value == ""` also does not equate a named-type empty string with `""`.
- Cyclic pointer values are not modelled: `Data` is an inductive datatype, so every pointer chain
  ends. In Go a self-referential pointer type makes the dereference loop (validation.go:61-63)
  run forever.
- Struct fields are given with their `json` tag value and their value. Unexported fields, on which
  `Interface()` panics, are not modelled. A field holding a typed nil (a nil pointer or slice) is
  not the nil interface in Go; the model's `Absent` stands only for the nil interface.
- Validators.PhoneValidation: the unchecked type assertion panics on present non-strings; the model
  makes this a precondition. `Engine.Validate` requires every validator of a resolved rule to accept
  its value.
- The file validators: a `*multipart.FileHeader` is reduced to its Content-Type header and size. A
  nil `*FileHeader` held in an interface is not modelled. On one, ImageValidation (validation.go:328),
  ImageMimeValidation (validation.go:384) and FileTypeValidation (validation.go:423) would panic in
  `file.Header.Get`, FileSizeValidation would panic reading `file.Size` (validation.go:351), and
  FileValidation would pass it, since its type assertion succeeds (validation.go:399-406).
- The regular-expression error branches of `URLValidation` and `DateValidation`
  (validation.go:276-280) and the ignored error of `NumericValidation`'s `MatchString` are not
  modelled: each pattern is a fixed literal that always compiles. `DateValidation`'s branch would
  return "Invalid date format", the same message as a failed match.
- Text.ToLower: only ASCII letters are mapped; Go's `strings.ToLower` maps all of Unicode.
- Strings are sequences of Unicode scalar values, so invalid UTF-8 byte strings are not modelled;
  `len` is the UTF-8 byte count of such a sequence.
- Integers are unbounded; `int` and `int64` bounds in the factories do not wrap in the model.
- `ValidationRule.Description`, which nothing reads, is dropped.
- The demo's printing of the items (`fmt.Println`) is not modelled.
