/** The parts of Go's `strings`, `fmt` and built-in `len` that the validators rely on, over
    Dafny strings (sequences of Unicode scalar values). */
module Text {

  predicate IsDigit(c: char) { '0' <= c <= '9' }
  predicate IsAsciiUpper(c: char) { 'A' <= c <= 'Z' }
  predicate IsAsciiLower(c: char) { 'a' <= c <= 'z' }
  predicate IsAsciiLetter(c: char) { IsAsciiUpper(c) || IsAsciiLower(c) }

  predicate AllDigits(s: string) {
    forall i | 0 <= i < |s| :: IsDigit(s[i])
  }

  /** AllDigits read through membership, which a concrete string settles character by character. */
  lemma AllDigitsByMembership(s: string)
    ensures AllDigits(s) <==> forall c | c in s :: IsDigit(c)
  {
  }

  predicate IsAscii(s: string) {
    forall i | 0 <= i < |s| :: s[i] as int < 0x80
  }

  // ---------------------------------------------------------------------------------------
  // len(s): Go measures a string in UTF-8 bytes, not in characters.

  /** Number of bytes UTF-8 needs for one character. */
  function RuneLen(c: char): (n: nat)
    ensures 1 <= n <= 4
    ensures n == 1 <==> c as int < 0x80
  {
    if c as int < 0x80 then 1
    else if c as int < 0x800 then 2
    else if c as int < 0x10000 then 3
    else 4
  }

  /** Go's `len(s)` on a string: the length of its UTF-8 encoding. */
  function ByteLen(s: string): nat {
    if s == [] then 0 else RuneLen(s[0]) + ByteLen(s[1..])
  }

  /** A string takes at least one and at most four bytes per character, and exactly one byte
      per character when it is all ASCII. */
  lemma {:induction false} ByteLenBounds(s: string)
    ensures |s| <= ByteLen(s) <= 4 * |s|
    ensures ByteLen(s) == |s| <==> IsAscii(s)
  {
    if s != [] {
      ByteLenBounds(s[1..]);
      assert IsAscii(s) <==> s[0] as int < 0x80 && IsAscii(s[1..]) by {
        assert forall i | 1 <= i < |s| :: s[i] == s[1..][i - 1];
      }
    }
  }

  // ---------------------------------------------------------------------------------------
  // Decimal numerals: fmt's %d and the digit parsing time.Parse does.

  function DigitValue(c: char): (d: nat)
    requires IsDigit(c)
    ensures d < 10
  {
    c as int - '0' as int
  }

  function DigitChar(d: nat): (c: char)
    requires d < 10
    ensures IsDigit(c) && DigitValue(c) == d
  {
    (d + '0' as int) as char
  }

  /** The number a string of decimal digits denotes, most significant digit first. */
  function DecimalValue(s: string): nat
    requires AllDigits(s)
  {
    if s == [] then 0 else 10 * DecimalValue(s[..|s| - 1]) + DigitValue(s[|s| - 1])
  }

  /** Decimal representation of a natural number without leading zeros. */
  function FormatNat(n: nat): (s: string)
    ensures |s| > 0 && AllDigits(s)
    ensures n < 10 <==> |s| == 1
    ensures |s| > 1 ==> s[0] != '0'
  {
    if n < 10 then [DigitChar(n)] else FormatNat(n / 10) + [DigitChar(n % 10)]
  }

  /** `fmt.Sprintf("%d", n)`. */
  function FormatInt(n: int): (s: string)
    ensures |s| > 0
    ensures n < 0 <==> s[0] == '-'
  {
    if n < 0 then "-" + FormatNat(-n) else FormatNat(n)
  }

  /** %d is read back by the decimal parser: formatting loses nothing. */
  lemma {:induction false} FormatNatRoundTrip(n: nat)
    ensures DecimalValue(FormatNat(n)) == n
  {
    if n >= 10 {
      var s := FormatNat(n);
      FormatNatRoundTrip(n / 10);
      assert s[..|s| - 1] == FormatNat(n / 10);
    }
  }

  /** Distinct naturals are formatted differently: the digits read back to the number. */
  lemma FormatNatInjective(a: nat, b: nat)
    ensures FormatNat(a) == FormatNat(b) ==> a == b
  {
    FormatNatRoundTrip(a);
    FormatNatRoundTrip(b);
  }

  /** Distinct integers are formatted differently: the sign is the first character, and the
      digits after it are those of the magnitude. */
  lemma FormatIntInjective(a: int, b: int)
    ensures FormatInt(a) == FormatInt(b) ==> a == b
  {
    if a < 0 && b < 0 {
      var da, db := FormatNat(-a), FormatNat(-b);
      assert ("-" + da)[1..] == da && ("-" + db)[1..] == db;
      FormatNatInjective(-a, -b);
    } else if 0 <= a && 0 <= b {
      FormatNatInjective(a, b);
    }
  }

  /** Equal strings with the same prefix and suffix have the same middle. */
  lemma MiddleCancel<T>(p: seq<T>, x: seq<T>, y: seq<T>, q: seq<T>)
    ensures p + x + q == p + y + q ==> x == y
  {
    if p + x + q == p + y + q {
      assert (p + x + q)[|p|..|p| + |x|] == x;
      assert (p + y + q)[|p|..|p| + |y|] == y;
    }
  }

  // ---------------------------------------------------------------------------------------
  // strings.HasPrefix, strings.TrimPrefix, strings.ToLower

  /** `strings.HasPrefix(s, prefix)` */
  predicate HasPrefix(s: string, prefix: string) {
    |prefix| <= |s| && s[..|prefix|] == prefix
  }

  /** `strings.TrimPrefix(s, prefix)`: drops the prefix once when present, matching case exactly. */
  function TrimPrefix(s: string, prefix: string): (r: string)
    ensures HasPrefix(s, prefix) ==> prefix + r == s
    ensures !HasPrefix(s, prefix) ==> r == s
  {
    if HasPrefix(s, prefix) then s[|prefix|..] else s
  }

  /** `unicode.ToLower` restricted to ASCII letters. */
  function LowerChar(c: char): (l: char)
    ensures !IsAsciiUpper(l)
    ensures IsAsciiUpper(c) ==> IsAsciiLower(l) && l as int == c as int + 32
    ensures !IsAsciiUpper(c) ==> l == c
  {
    if IsAsciiUpper(c) then (c as int + 32) as char else c
  }

  /** `strings.ToLower(s)` for ASCII case mapping. */
  function ToLower(s: string): string {
    if s == [] then [] else [LowerChar(s[0])] + ToLower(s[1..])
  }

  /** Concatenation is associative; stated on its own so that proofs can regroup cheaply. */
  lemma AppendAssoc<T>(a: seq<T>, b: seq<T>, c: seq<T>)
    ensures (a + b) + c == a + (b + c)
  {
  }

  /** Lower-casing works character by character, so it distributes over concatenation. */
  lemma {:induction false} ToLowerAppend(a: string, b: string)
    ensures ToLower(a + b) == ToLower(a) + ToLower(b)
  {
    if a == [] {
      assert a + b == b;
    } else {
      var ab := a + b;
      assert ab[0] == a[0] && ab[1..] == a[1..] + b;
      ToLowerAppend(a[1..], b);
      assert ToLower(ab) == [LowerChar(a[0])] + ToLower(a[1..] + b);
      AppendAssoc([LowerChar(a[0])], ToLower(a[1..]), ToLower(b));
    }
  }

  /** A string without upper-case ASCII letters is its own lower-case form. */
  lemma {:induction false} ToLowerKeepsLowerCase(s: string)
    requires forall i | 0 <= i < |s| :: !IsAsciiUpper(s[i])
    ensures ToLower(s) == s
  {
    if s != [] {
      assert forall i | 0 <= i < |s| - 1 :: s[1..][i] == s[i + 1];
      ToLowerKeepsLowerCase(s[1..]);
    }
  }

  /** Lower-casing three characters, one at a time. */
  lemma ToLowerThree(a: char, b: char, c: char)
    ensures ToLower([a, b, c]) == [LowerChar(a), LowerChar(b), LowerChar(c)]
  {
    var s := [a, b, c];
    assert s[1..] == [b, c] && s[1..][1..] == [c] && s[1..][1..][1..] == [];
    assert ToLower([c]) == [LowerChar(c)];
    assert ToLower([b, c]) == [LowerChar(b)] + ToLower([c]);
    assert ToLower(s) == [LowerChar(a)] + ToLower([b, c]);
  }

  lemma {:induction false} ToLowerLength(s: string)
    ensures |ToLower(s)| == |s|
  {
    if s != [] {
      ToLowerLength(s[1..]);
    }
  }

  /** Lower-casing keeps the length and maps each character on its own. */
  lemma {:induction false} ToLowerAt(s: string, i: nat)
    requires i < |s|
    ensures |ToLower(s)| == |s| && ToLower(s)[i] == LowerChar(s[i])
  {
    if i > 0 {
      ToLowerAt(s[1..], i - 1);
    } else if |s| > 1 {
      ToLowerAt(s[1..], 0);
    }
  }

  /** Lower-casing leaves no upper-case ASCII letter and is idempotent. */
  lemma {:induction false} ToLowerIdempotent(s: string)
    ensures |ToLower(s)| == |s|
    ensures forall i | 0 <= i < |s| :: !IsAsciiUpper(ToLower(s)[i])
    ensures ToLower(ToLower(s)) == ToLower(s)
  {
    ToLowerLength(s);
    forall i | 0 <= i < |s| ensures !IsAsciiUpper(ToLower(s)[i]) {
      ToLowerAt(s, i);
    }
    if s != [] {
      ToLowerIdempotent(s[1..]);
      var t := ToLower(s);
      assert t[1..] == ToLower(s[1..]);
    }
  }
}
