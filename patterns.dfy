/** The regular expressions the validators compile, each written out as the set of strings the
    expression matches in full (every pattern is anchored with ^ and $). */
module Patterns {
  import opened Values
  import opened Text

  /** `^[0-9]+$` */
  predicate MatchesDigits(s: string) {
    |s| >= 1 && AllDigits(s)
  }

  /** `^\+[1-9]\d{1,14}$`: a plus sign, a non-zero digit, then one to fourteen digits. */
  predicate MatchesPhone(s: string) {
    3 <= |s| <= 16 && s[0] == '+' && '1' <= s[1] <= '9' && AllDigits(s[2..])
  }

  /** `^\d{4}-\d{2}-\d{2}$` */
  predicate MatchesDateShape(s: string) {
    |s| == 10 &&
    IsDigit(s[0]) && IsDigit(s[1]) && IsDigit(s[2]) && IsDigit(s[3]) && s[4] == '-' &&
    IsDigit(s[5]) && IsDigit(s[6]) && s[7] == '-' && IsDigit(s[8]) && IsDigit(s[9])
  }

  // ---------------------------------------------------------------------------------------
  // `^[a-zA-Z0-9._%+\-]+@[a-zA-Z0-9.\-]+\.[a-zA-Z]{2,}$`

  predicate IsEmailLocalChar(c: char) {
    IsAsciiLetter(c) || IsDigit(c) || c == '.' || c == '_' || c == '%' || c == '+' || c == '-'
  }

  predicate IsEmailDomainChar(c: char) {
    IsAsciiLetter(c) || IsDigit(c) || c == '.' || c == '-'
  }

  predicate AllEmailLocal(s: string) { forall i | 0 <= i < |s| :: IsEmailLocalChar(s[i]) }
  predicate AllEmailDomain(s: string) { forall i | 0 <= i < |s| :: IsEmailDomainChar(s[i]) }
  predicate AllLetters(s: string) { forall i | 0 <= i < |s| :: IsAsciiLetter(s[i]) }

  /** The string splits as local-part '@' domain '.' top-level-label, with a non-empty local part,
      a non-empty domain and a top-level label of at least two ASCII letters. */
  predicate MatchesEmail(s: string) {
    exists at | 0 < at < |s| ::
      s[at] == '@' && AllEmailLocal(s[..at]) &&
      exists dot | at + 1 < dot < |s| - 2 ::
        s[dot] == '.' && AllEmailDomain(s[at + 1..dot]) && AllLetters(s[dot + 1..])
  }

  // ---------------------------------------------------------------------------------------
  // `^(http|https)://[\w\-_]+(\.[\w\-_]+)+([\w\-\.,@?^=%&:/~\+#]*[\w\-\@?^=%&/~\+#])?$`

  /** `\w`: ASCII letters, digits and underscore. */
  predicate IsWordChar(c: char) {
    IsAsciiLetter(c) || IsDigit(c) || c == '_'
  }

  /** `[\w\-_]`, the characters of one host label. */
  predicate IsHostChar(c: char) {
    IsWordChar(c) || c == '-'
  }

  /** `[\w\-\.,@?^=%&:/~\+#]`, the characters of the optional path part. */
  predicate IsPathChar(c: char) {
    IsWordChar(c) || c in "-.,@?^=%&:/~+#"
  }

  /** `[\w\-\@?^=%&/~\+#]`, the characters the path part may end with. */
  predicate IsPathEndChar(c: char) {
    IsWordChar(c) || c in "-@?^=%&/~+#"
  }

  /** `[\w\-_]+(\.[\w\-_]+)+`: two or more non-empty labels joined by single dots. */
  predicate IsDottedHost(h: string) {
    |h| >= 3 && '.' in h && h[0] != '.' && h[|h| - 1] != '.' &&
    (forall i | 0 <= i < |h| :: IsHostChar(h[i]) || h[i] == '.') &&
    (forall i | 0 <= i < |h| - 1 :: h[i] == '.' ==> h[i + 1] != '.')
  }

  /** `([\w\-\.,@?^=%&:/~\+#]*[\w\-\@?^=%&/~\+#])?` */
  predicate IsUrlPath(p: string) {
    p == [] ||
    ((forall i | 0 <= i < |p| :: IsPathChar(p[i])) && IsPathEndChar(p[|p| - 1]))
  }

  /** What follows `http://` or `https://`, when the string starts with either. */
  function AfterScheme(s: string): (r: Option<string>)
    ensures r.Some? ==> |r.value| < |s|
  {
    if HasPrefix(s, "http://") then Some(s[7..])
    else if HasPrefix(s, "https://") then Some(s[8..])
    else None
  }

  predicate MatchesUrl(s: string) {
    match AfterScheme(s)
    case None => false
    case Some(rest) =>
      exists k | 0 <= k <= |rest| :: IsDottedHost(rest[..k]) && IsUrlPath(rest[k..])
  }
}
