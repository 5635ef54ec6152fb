/** What the built-in validators promise, each stated against an independent description: the
    optional-field convention, the length window, the regular expressions, the calendar, and the
    relations between the file validators. */
module ValidatorLemmas {
  import opened Values
  import opened Text
  import opened Patterns
  import opened Calendar
  import opened Validators

  // ---------------------------------------------------------------------------------------
  // Presence

  /** Only RequiredValidation enforces presence: on nil or "" it fails and every other validator,
      whatever its configuration, passes. */
  lemma BlankPassesAllButRequired(value: Value, bound: int, validTypes: seq<string>)
    requires IsBlank(value)
    ensures RequiredValidation(value) == Fail(RequiredMessage)
    ensures MinLength(bound, value) == Pass && MaxLength(bound, value) == Pass
    ensures EmailValidation(value) == Pass && PhoneValidation(value) == Pass
    ensures URLValidation(value) == Pass && StringValidation(value) == Pass
    ensures NumericValidation(value) == Pass && DateValidation(value) == Pass
    ensures ImageValidation(value) == Pass && FileSize(bound, value) == Pass
    ensures ImageMimeValidation(value) == Pass && FileValidation(value) == Pass
    ensures FileTypeValidation(value, validTypes) == Pass
  {
  }

  /** RequiredValidation fails exactly on nil, the empty string and an empty slice or map; a zero
      number, a false boolean or an empty file are present. */
  lemma RequiredFailsExactlyOnEmpty(value: Value)
    ensures RequiredValidation(value) != Pass <==>
              value == Absent || value == Str("") || value == Coll(0)
    ensures RequiredValidation(Int(0)) == Pass
  {
  }

  // ---------------------------------------------------------------------------------------
  // Length

  /** The length a bound validator measures: bytes for a string, entries for a slice or map. */
  function MeasuredLength(value: Value): (n: nat)
    requires value.Str? || value.Coll?
  {
    if value.Str? then ByteLen(value.s) else value.len
  }

  /** Both bounds are inclusive: a non-empty string or collection passes MinLength(lo) and
      MaxLength(hi) together exactly when its length lies in lo..hi; other kinds always pass. */
  lemma LengthWindow(value: Value, lo: int, hi: int)
    ensures (value.Str? || value.Coll?) && !IsBlank(value) ==>
              (MinLength(lo, value) == Pass && MaxLength(hi, value) == Pass <==>
               lo <= MeasuredLength(value) <= hi)
    ensures !(value.Str? || value.Coll?) ==> MinLength(lo, value) == Pass && MaxLength(hi, value) == Pass
  {
  }

  /** Tightening a bound can only add failures. */
  lemma LengthBoundsMonotone(value: Value, lo: int, lo': int, hi: int, hi': int)
    requires lo' <= lo && hi <= hi'
    ensures MinLength(lo, value) == Pass ==> MinLength(lo', value) == Pass
    ensures MaxLength(hi, value) == Pass ==> MaxLength(hi', value) == Pass
  {
  }

  /** A slice or map is measured by its length and a failing one gets the "items" message; a
      non-empty string gets the "characters" messages. */
  lemma LengthMessagesByKind(lo: int, hi: int, n: nat, str: string)
    requires str != ""
    ensures MinLength(lo, Coll(n)) == if n < lo then Fail(MinLengthItemsMessage(lo)) else Pass
    ensures MaxLength(hi, Coll(n)) == if n > hi then Fail(MaxLengthItemsMessage(hi)) else Pass
    ensures MinLength(lo, Str(str)) == if ByteLen(str) < lo then Fail(MinLengthStringMessage(lo)) else Pass
    ensures MaxLength(hi, Str(str)) == if ByteLen(str) > hi then Fail(MaxLengthStringMessage(hi)) else Pass
  {
  }

  /** For an ASCII string the byte count is the character count; beyond ASCII, Go's `len` counts
      bytes, so "é" (two bytes) already meets a minimum of two. */
  lemma LengthCountsBytes(s: string, bound: int)
    requires s != "" && IsAscii(s)
    ensures MinLength(bound, Str(s)) != Pass <==> |s| < bound
    ensures MaxLength(bound, Str(s)) != Pass <==> |s| > bound
    ensures MinLength(2, Str("é")) == Pass
  {
    ByteLenBounds(s);
    assert ByteLen("é") == 2;
  }

  /** The messages carry the bound in decimal, e.g. MinLength(3) reports
      "Field must be at least 3 characters long". */
  lemma LengthMessagesShowBound(s: string)
    requires s != "" && ByteLen(s) < 3
    ensures MinLength(3, Str(s)) == Fail("Field must be at least 3 characters long")
    ensures MaxLength(50, Coll(51)) == Fail("Field must not have more than 50 items")
  {
    MinLengthMessageOfThree();
    MaxLengthItemsMessageOfFifty();
  }

  /** Every bound is spelled out in full: distinct bounds give distinct messages. */
  lemma MessagesDistinguishBounds(a: int, b: int)
    requires a != b
    ensures MinLengthStringMessage(a) != MinLengthStringMessage(b)
    ensures MinLengthItemsMessage(a) != MinLengthItemsMessage(b)
    ensures MaxLengthStringMessage(a) != MaxLengthStringMessage(b)
    ensures MaxLengthItemsMessage(a) != MaxLengthItemsMessage(b)
    ensures FileSizeMessage(a) != FileSizeMessage(b)
  {
    FormatIntInjective(a, b);
    MiddleCancel("Field must be at least ", FormatInt(a), FormatInt(b), " characters long");
    MiddleCancel("Field must have at least ", FormatInt(a), FormatInt(b), " items");
    MiddleCancel("Field must not exceed ", FormatInt(a), FormatInt(b), " characters");
    MiddleCancel("Field must not have more than ", FormatInt(a), FormatInt(b), " items");
    MiddleCancel("File size must be less than ", FormatInt(a), FormatInt(b), " bytes");
  }

  lemma MinLengthMessageOfThree()
    ensures MinLengthStringMessage(3) == "Field must be at least 3 characters long"
  {
    assert FormatInt(3) == "3";
  }

  lemma MaxLengthItemsMessageOfFifty()
    ensures MaxLengthItemsMessage(50) == "Field must not have more than 50 items"
  {
    assert FormatInt(50) == "50" by {
      assert FormatNat(5) == "5";
      assert FormatNat(50) == FormatNat(5) + [DigitChar(0)];
    }
  }

  // ---------------------------------------------------------------------------------------
  // Kinds and formats

  /** StringValidation accepts exactly the strings (and nil). */
  lemma StringAcceptsOnlyStrings(value: Value)
    ensures StringValidation(value) == Pass <==> value.Absent? || value.Str?
  {
  }

  /** FileValidation accepts exactly the uploaded files (and nil and ""). */
  lemma FileAcceptsExactlyFiles(value: Value)
    ensures FileValidation(value) == Pass <==> IsBlank(value) || value.File?
  {
  }

  /** NumericValidation accepts integer kinds and strings of ASCII digits, and nothing else. */
  lemma NumericAcceptsIntegersAndDigitStrings(value: Value)
    ensures NumericValidation(value) == Pass <==>
              IsBlank(value) || value.Int? || value.Uint? || (value.Str? && MatchesDigits(value.s))
    ensures NumericValidation(Int(-5)) == Pass
  {
  }

  /** A sign, a decimal point or a thousands separator makes a string non-numeric. */
  lemma NumericRejectsSignsAndSeparators()
    ensures NumericValidation(Str("123456")) == Pass
    ensures NumericValidation(Str("-1")) == Fail("Field must be numeric")
    ensures NumericValidation(Str("1.5")) == Fail("Field must be numeric")
    ensures NumericValidation(Str("1,000")) == Fail("Field must be numeric")
    ensures NumericValidation(Other) == Fail("Field must be numeric")
  {
    assert !IsDigit("-1"[0]);
    assert !IsDigit("1.5"[1]);
    assert !IsDigit("1,000"[1]);
  }

  /** PhoneValidation passes a non-empty string exactly when it is '+', a digit 1-9 and 1 to 14
      more digits. */
  lemma PhoneAcceptsE164(s: string)
    ensures PhoneValidation(Str(s)) == Pass <==> s == "" || MatchesPhone(s)
  {
  }

  lemma PhoneExamples()
    ensures PhoneValidation(Str("+8801712345678")) == Pass
    ensures PhoneValidation(Str("+0123")) == Fail("Invalid phone number format")
    ensures PhoneValidation(Str("+1")) == Fail("Invalid phone number format")
    ensures PhoneValidation(Str("+1234567890123456")) == Fail("Invalid phone number format")
  {
    var ok := "+8801712345678";
    assert AllDigits(ok[2..]) by {
      assert ok[2..] == "801712345678";
      AllDigitsByMembership("801712345678");
    }
  }

  /** EmailValidation lets every non-string through. */
  lemma EmailIgnoresNonStrings(value: Value)
    ensures !value.Str? ==> EmailValidation(value) == Pass
  {
  }

  /** "a@b.co" is an address: local part "a", domain "b", top-level label "co". */
  lemma EmailAcceptsShortAddress()
    ensures EmailValidation(Str("a@b.co")) == Pass
  {
    var e := "a@b.co";
    assert e[1] == '@' && AllEmailLocal(e[..1]);
    assert e[3] == '.' && AllEmailDomain(e[2..3]);
    assert AllLetters(e[4..]) by {
      assert e[4..] == "co";
    }
  }

  /** A non-empty local part, '@', a non-empty domain, '.', and a top-level label of two or more
      ASCII letters always make a valid address. */
  lemma EmailAcceptsParts(local: string, domain: string, top: string)
    requires local != "" && AllEmailLocal(local)
    requires domain != "" && AllEmailDomain(domain)
    requires |top| >= 2 && AllLetters(top)
    ensures EmailValidation(Str(local + "@" + domain + "." + top)) == Pass
  {
    var e := local + "@" + domain + "." + top;
    var at := |local|;
    var dot := at + 1 + |domain|;
    assert e[..at] == local && e[at] == '@';
    assert e[at + 1..dot] == domain && e[dot] == '.';
    assert e[dot + 1..] == top;
    assert MatchesEmail(e);
  }

  /** Every address needs an '@': a present string without one fails. */
  lemma EmailRequiresAt(s: string)
    requires s != "" && '@' !in s
    ensures EmailValidation(Str(s)) == Fail("Field must be a valid email address")
  {
    forall at | 0 <= at < |s| ensures s[at] != '@' {
      assert s[at] in s;
    }
  }

  /** A string without '@' is not an address. */
  lemma EmailRejectsMissingAt()
    ensures EmailValidation(Str("not-an-email")) == Fail("Field must be a valid email address")
  {
    var n := "not-an-email";
    assert '@' !in n;
  }

  /** The top-level label needs at least two letters: a string whose last '.' is followed by a
      single character is never an address. */
  lemma EmailRejectsOneLetterLabel(s: string)
    requires |s| >= 2 && s[|s| - 2] == '.'
    ensures EmailValidation(Str(s)) == Fail("Field must be a valid email address")
  {
    forall start | 1 <= start < |s| - 1 ensures !AllLetters(s[start..]) {
      assert s[start..][|s| - 2 - start] == s[|s| - 2];
    }
  }

  /** For instance "a@b.c". */
  lemma EmailRejectsShortTopLabel()
    ensures EmailValidation(Str("a@b.c")) == Fail("Field must be a valid email address")
  {
  }

  /** URLValidation rejects present non-strings with its own message. */
  lemma URLRejectsNonStrings(value: Value)
    ensures !IsBlank(value) && !value.Str? ==> URLValidation(value) == Fail("Value is not a string")
  {
  }

  /** Either scheme, then a dotted host, then a path (possibly empty) is a URL. */
  lemma URLAcceptsSchemeHostPath(scheme: string, host: string, path: string)
    requires scheme == "http://" || scheme == "https://"
    requires IsDottedHost(host) && IsUrlPath(path)
    ensures URLValidation(Str(scheme + host + path)) == Pass
  {
    var u := scheme + host + path;
    AppendAssoc(scheme, host, path);
    assert u[..|scheme|] == scheme;
    if scheme == "https://" {
      assert u[4] == 's';
      assert !HasPrefix(u, "http://");
    }
    var rest := u[|scheme|..];
    assert rest == host + path;
    assert AfterScheme(u) == Some(rest);
    assert rest[..|host|] == host && rest[|host|..] == path;
    assert IsDottedHost(rest[..|host|]) && IsUrlPath(rest[|host|..]);
    assert MatchesUrl(u);
  }

  /** For instance "https://example.com/a?b=c". */
  lemma URLAcceptsHostAndPath()
    ensures URLValidation(Str("https://" + "example.com" + "/a?b=c")) == Pass
  {
    HostExample();
    PathExample();
    URLAcceptsSchemeHostPath("https://", "example.com", "/a?b=c");
  }

  lemma HostExample()
    ensures IsDottedHost("example.com")
  {
    var h := "example.com";
    assert h[7] == '.';
    assert forall c | c in h :: IsHostChar(c) || c == '.';
    assert forall i | 0 <= i < |h| :: IsHostChar(h[i]) || h[i] == '.' by {
      forall i | 0 <= i < |h| ensures IsHostChar(h[i]) || h[i] == '.' {
        assert h[i] in h;
      }
    }
  }

  lemma PathExample()
    ensures IsUrlPath("/a?b=c")
  {
    var p := "/a?b=c";
    assert forall c | c in p :: IsPathChar(c);
    forall i | 0 <= i < |p| ensures IsPathChar(p[i]) {
      assert p[i] in p;
    }
  }

  /** A host needs at least one dot. */
  lemma URLRejectsUndottedHost()
    ensures URLValidation(Str("http://localhost")) == Fail("Value is not a valid URL")
  {
    var h := "http://localhost";
    assert HasPrefix(h, "http://") by {
      assert h[..7] == "http://";
    }
    var rest := h[7..];
    assert rest == "localhost";
    assert '.' !in rest;
    forall k | 0 <= k <= |rest| ensures !IsDottedHost(rest[..k]) {
      assert forall c | c in rest[..k] :: c in rest;
    }
  }

  /** Only the http and https schemes are accepted: a present string that starts with neither is
      not a URL. */
  lemma URLRequiresHttpScheme(s: string)
    ensures s != "" && !HasPrefix(s, "http://") && !HasPrefix(s, "https://") ==>
              URLValidation(Str(s)) == Fail("Value is not a valid URL")
  {
  }

  /** For instance "ftp://example.com". */
  lemma URLRejectsOtherSchemes()
    ensures URLValidation(Str("ftp://example.com")) == Fail("Value is not a valid URL")
  {
    var f := "ftp://example.com";
    assert !HasPrefix(f, "http://") && !HasPrefix(f, "https://") by {
      assert f[0] == 'f';
    }
  }

  // ---------------------------------------------------------------------------------------
  // Dates

  /** The calendar parse decides, not the shape: a non-empty string passes DateValidation exactly
      when it is shaped dddd-dd-dd, names a real Gregorian date, and its year is not 0000. */
  lemma DatePassesExactlyRealDates(s: string)
    ensures DateValidation(Str(s)) == Pass <==>
              s == "" ||
              (MatchesDateShape(s) && s[..4] != "0000" &&
               IsCalendarDate(YearField(s), MonthField(s), DayField(s)))
  {
    if s != "" && MatchesDateShape(s) {
      ParseDateIsCalendar(s);
      if ParseDate(s).Some? {
        YearZeroIffZeros(s);
      }
    }
  }

  /** Which message a date gets: the year check fires only for year 0000, and the month and day
      checks never fire, since a successful parse already bounds both. */
  lemma DateLaterChecksUnreachable(value: Value)
    ensures DateValidation(value).message != "Invalid month"
    ensures DateValidation(value).message != "Invalid day"
    ensures DateValidation(value).message == "Invalid year" <==>
              value.Str? && MatchesDateShape(value.s) && ParseDate(value.s).Some? && value.s[..4] == "0000"
  {
    if value.Str? && value.s != "" && MatchesDateShape(value.s) && ParseDate(value.s).Some? {
      YearZeroIffZeros(value.s);
    }
  }

  /** The first two messages split the failures: "Invalid date format" exactly for a present value
      that is not a string shaped dddd-dd-dd, "Invalid date" exactly for such a string that names
      no calendar date. */
  lemma DateMessageForShapeAndCalendar(value: Value)
    ensures DateValidation(value) == Fail("Invalid date format") <==>
              !IsBlank(value) && (!value.Str? || !MatchesDateShape(value.s))
    ensures DateValidation(value) == Fail("Invalid date") <==>
              value.Str? && MatchesDateShape(value.s) &&
              !IsCalendarDate(YearField(value.s), MonthField(value.s), DayField(value.s))
  {
    if value.Str? && MatchesDateShape(value.s) {
      ParseDateIsCalendar(value.s);
    }
  }

  /** February 30 fails the parse although it has the right shape. */
  lemma DateRejectsFebruary30()
    ensures DateValidation(Str("2023-02-30")) == Fail("Invalid date")
  {
  }

  /** Leap days follow the Gregorian rule: 2024 is a leap year, divisible by four ... */
  lemma DateAcceptsLeapDay()
    ensures DateValidation(Str("2024-02-29")) == Pass
  {
  }

  /** ... and so is 2000, divisible by four hundred ... */
  lemma DateAcceptsCenturyLeapDay()
    ensures DateValidation(Str("2000-02-29")) == Pass
  {
  }

  /** ... while 2023 is not ... */
  lemma DateRejectsCommonYearLeapDay()
    ensures DateValidation(Str("2023-02-29")) == Fail("Invalid date")
  {
  }

  /** ... nor is 1900, divisible by a hundred but not by four hundred. */
  lemma DateRejectsCenturyLeapDay()
    ensures DateValidation(Str("1900-02-29")) == Fail("Invalid date")
  {
  }

  /** Day 31 of a 30-day month fails the parse ... */
  lemma DateRejectsDay31OfApril()
    ensures DateValidation(Str("2023-04-31")) == Fail("Invalid date")
  {
  }

  /** ... and so does month 13. */
  lemma DateRejectsMonth13()
    ensures DateValidation(Str("2023-13-01")) == Fail("Invalid date")
  {
  }

  /** Year 0000 parses but is reported as an invalid year. */
  lemma DateRejectsYearZero()
    ensures DateValidation(Str("0000-01-01")) == Fail("Invalid year")
  {
  }

  /** A slash-separated date and an integer are format errors (the general case is
      `DateMessageForShapeAndCalendar`). */
  lemma DateRejectsBadShape()
    ensures DateValidation(Str("2023/01/01")) == Fail("Invalid date format")
    ensures DateValidation(Int(20230101)) == Fail("Invalid date format")
  {
  }

  // ---------------------------------------------------------------------------------------
  // Files

  /** Every file validator rejects a present value that is not an uploaded file with the same
      message, instead of letting it through. */
  lemma FileValidatorsRejectNonFiles(value: Value, maxSize: int, validTypes: seq<string>)
    requires !IsBlank(value) && !value.File?
    ensures ImageValidation(value) == Fail(InvalidFileMessage)
    ensures FileSize(maxSize, value) == Fail(InvalidFileMessage)
    ensures ImageMimeValidation(value) == Fail(InvalidFileMessage)
    ensures FileValidation(value) == Fail(InvalidFileMessage)
    ensures FileTypeValidation(value, validTypes) == Fail(InvalidFileMessage)
  {
  }

  /** The size limit is inclusive: a file of exactly maxSize bytes passes. */
  lemma FileSizeLimitInclusive(contentType: string, size: int, maxSize: int)
    ensures FileSize(maxSize, File(contentType, size)) == Pass <==> size <= maxSize
    ensures size > maxSize ==> FileSize(maxSize, File(contentType, size)) == Fail(FileSizeMessage(maxSize))
  {
  }

  /** A 1500-byte upload against a 1000-byte limit, and the message it gets. */
  lemma FileSizeExample(contentType: string)
    ensures FileSize(1000, File(contentType, 1500)) == Fail("File size must be less than 1000 bytes")
  {
    FileSizeMessageOfThousand();
  }

  lemma FileSizeMessageOfThousand()
    ensures FileSizeMessage(1000) == "File size must be less than 1000 bytes"
  {
    assert FormatInt(1000) == "1000" by {
      assert FormatNat(1) == "1";
      assert FormatNat(10) == FormatNat(1) + "0";
      assert FormatNat(100) == FormatNat(10) + "0";
      assert FormatNat(1000) == FormatNat(100) + "0";
    }
  }

  /** ImageMimeValidation is stricter than ImageValidation: each of its four types starts with
      "image/", while "image/gif" passes only the latter. */
  lemma ImageMimeImpliesImage(value: Value)
    ensures ImageMimeValidation(value) == Pass ==> ImageValidation(value) == Pass
    ensures ImageValidation(File("image/gif", 10)) == Pass
    ensures ImageMimeValidation(File("image/gif", 10)) == Fail("File must be a PNG, JPG, JPEG or SVG")
  {
    if value.File? && value.contentType in AllowedMimeTypes {
      assert HasPrefix(value.contentType, "image/");
    }
    assert HasPrefix("image/gif", "image/");
  }

  /** ImageValidation passes a file exactly when its Content-Type starts with "image/";
      ImageMimeValidation exactly when it is one of the four listed types, spelled exactly. */
  lemma ImageTypesAccepted(contentType: string, size: int)
    ensures ImageValidation(File(contentType, size)) == Pass <==> HasPrefix(contentType, "image/")
    ensures ImageMimeValidation(File(contentType, size)) == Pass <==>
              contentType == "image/png" || contentType == "image/jpg" ||
              contentType == "image/jpeg" || contentType == "image/svg+xml"
  {
  }

  /** Membership in the allowed types is tested on the normalised type: a leading "application/"
      is removed (only in lower case), then the rest is lower-cased, so after that prefix the
      comparison ignores ASCII case. */
  lemma FileTypeComparesNormalizedType(contentType: string, size: int, validTypes: seq<string>)
    ensures FileTypeValidation(File(contentType, size), validTypes) == Pass <==>
              NormalizedFileType(contentType) in validTypes
    ensures FileTypeValidation(File("application/" + contentType, size), validTypes) == Pass <==>
              ToLower(contentType) in validTypes
  {
    var full := "application/" + contentType;
    assert HasPrefix(full, "application/") by {
      assert full[..|"application/"|] == "application/";
    }
    assert TrimPrefix(full, "application/") == contentType;
  }

  /** A type already in lower case and without the "application/" prefix is compared as written. */
  lemma FileTypeLowerCaseComparedAsWritten(contentType: string, size: int, validTypes: seq<string>)
    requires !HasPrefix(contentType, "application/")
    requires forall i | 0 <= i < |contentType| :: !IsAsciiUpper(contentType[i])
    ensures NormalizedFileType(contentType) == contentType
    ensures FileTypeValidation(File(contentType, size), validTypes) == Pass <==> contentType in validTypes
  {
    ToLowerKeepsLowerCase(contentType);
  }

  /** The normalised type holds no upper-case ASCII letter, so allowed types written with one, such
      as "PDF", never match: every upload is rejected. */
  lemma FileTypeUpperCaseEntriesNeverMatch(contentType: string, size: int, validTypes: seq<string>)
    requires forall t | t in validTypes :: exists i | 0 <= i < |t| :: IsAsciiUpper(t[i])
    ensures FileTypeValidation(File(contentType, size), validTypes) == Fail("File type is not allowed")
  {
    ToLowerIdempotent(TrimPrefix(contentType, "application/"));
  }

  /** "application/PDF" normalises to "pdf". */
  lemma FileTypeStripsLowerCasePrefix()
    ensures NormalizedFileType("application/PDF") == "pdf"
  {
    var t := "application/PDF";
    assert HasPrefix(t, "application/") by {
      assert t[..12] == "application/";
    }
    assert TrimPrefix(t, "application/") == "PDF";
    ToLowerThree('P', 'D', 'F');
  }

  /** The prefix is matched before lower-casing, so an upper-case "APPLICATION/" is not removed:
      the whole type is lower-cased, all twelve characters of the prefix stay, and the result
      starts with 'a'. */
  lemma FileTypeKeepsUpperCasePrefix(rest: string)
    ensures NormalizedFileType("APPLICATION/" + rest) == ToLower("APPLICATION/" + rest)
    ensures |NormalizedFileType("APPLICATION/" + rest)| == 12 + |rest|
    ensures NormalizedFileType("APPLICATION/" + rest)[0] == 'a'
    ensures NormalizedFileType("APPLICATION/" + rest) == ToLower("APPLICATION/") + ToLower(rest)
  {
    var t := "APPLICATION/" + rest;
    assert t[0] == 'A';
    assert !HasPrefix(t, "application/");
    ToLowerAt(t, 0);
    ToLowerAppend("APPLICATION/", rest);
  }

  /** The case of a PDF upload whose type is written in capitals: it does not normalise to "pdf". */
  lemma FileTypeUpperCaseExample()
    ensures NormalizedFileType("APPLICATION/PDF") != "pdf"
  {
    assert "APPLICATION/PDF" == "APPLICATION/" + "PDF";
    FileTypeKeepsUpperCasePrefix("PDF");
  }

  /** So an upper-case "APPLICATION/" type never matches an allowed list of short types such as
      ["pdf"]: the upload is rejected. */
  lemma FileTypeUpperCasePrefixRejected(rest: string, size: int, validTypes: seq<string>)
    requires forall t | t in validTypes :: |t| < 12
    ensures FileTypeValidation(File("APPLICATION/" + rest, size), validTypes) == Fail("File type is not allowed")
  {
    var t := "APPLICATION/" + rest;
    assert t[0] == 'A';
    assert !HasPrefix(t, "application/");
    ToLowerLength(t);
  }
}
