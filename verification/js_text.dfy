/**
 * The pieces of ECMAScript string and number behaviour that the modelled code
 * relies on: the white-space class used by `\s` and `String.prototype.trim`,
 * the line terminators used by `.`, `^` and `$`, truthiness of an optional
 * string, `Number.prototype.toString(radix)` on non-negative integers and
 * `String.prototype.padStart` with a one-character filler.
 */
module JsText {
  import opened Wrappers

  /** ECMAScript WhiteSpace or LineTerminator: the class `\s` and what `trim` removes. */
  predicate IsSpace(c: char) {
    c == '\t' || c == '\n' || c == '\U{000B}' || c == '\U{000C}' || c == '\r' || c == ' '
    || c == '\U{00A0}' || c == '\U{1680}' || ('\U{2000}' <= c <= '\U{200A}')
    || c == '\U{2028}' || c == '\U{2029}' || c == '\U{202F}' || c == '\U{205F}'
    || c == '\U{3000}' || c == '\U{FEFF}'
  }

  /** ECMAScript LineTerminator: what `.` does not match and where `^`/`$` stop in multiline mode. */
  predicate IsLineTerminator(c: char) {
    c == '\n' || c == '\r' || c == '\U{2028}' || c == '\U{2029}'
  }

  lemma LineTerminatorIsSpace(c: char)
    requires IsLineTerminator(c)
    ensures IsSpace(c)
  {
  }

  /** A JavaScript value that is a string or missing is truthy iff it is a non-empty string. */
  predicate Truthy(s: Option<string>) {
    s.Some? && s.value != ""
  }

  /** Number of white-space characters at the front of `s`: what `trim` drops there. */
  function LeadingSpaces(s: string): (n: nat)
    ensures n <= |s|
    ensures forall i :: 0 <= i < n ==> IsSpace(s[i])
    ensures n == |s| || !IsSpace(s[n])
  {
    if s != [] && IsSpace(s[0]) then 1 + LeadingSpaces(s[1..]) else 0
  }

  /** Number of white-space characters at the end of `s`: what `trim` drops there. */
  function TrailingSpaces(s: string): (n: nat)
    ensures n <= |s|
    ensures forall i :: |s| - n <= i < |s| ==> IsSpace(s[i])
    ensures n == |s| || !IsSpace(s[|s| - n - 1])
  {
    if s != [] && IsSpace(s[|s| - 1]) then 1 + TrailingSpaces(s[..|s| - 1]) else 0
  }

  /** `String.prototype.trim`: drops white space at both ends and keeps the middle. */
  function Trim(s: string): (r: string)
    ensures LeadingSpaces(s) + |r| <= |s| && r == s[LeadingSpaces(s)..LeadingSpaces(s) + |r|]
    ensures forall k :: LeadingSpaces(s) + |r| <= k < |s| ==> IsSpace(s[k])
    ensures r == [] || (!IsSpace(r[0]) && !IsSpace(r[|r| - 1]))
  {
    var n := LeadingSpaces(s);
    if n == |s| then [] else s[n..|s| - TrailingSpaces(s)]
  }

  /** A string that neither starts nor ends with white space is its own trim. */
  lemma TrimOfTrimmed(s: string)
    requires s == [] || (!IsSpace(s[0]) && !IsSpace(s[|s| - 1]))
    ensures Trim(s) == s
  {
  }

  /** Trimming twice is trimming once. */
  lemma TrimIdempotent(s: string)
    ensures Trim(Trim(s)) == Trim(s)
  {
    TrimOfTrimmed(Trim(s));
  }

  /** Concatenation is associative. */
  lemma ConcatAssoc<T>(a: seq<T>, b: seq<T>, c: seq<T>)
    ensures a + (b + c) == (a + b) + c
  {
  }

  /** A string of length `n` made of `c`. */
  function Repeat(c: char, n: nat): (r: string)
    ensures |r| == n && forall i :: 0 <= i < n ==> r[i] == c
  {
    if n == 0 then [] else [c] + Repeat(c, n - 1)
  }

  /** `s.padStart(n, c)` for a one-character filler `c`. */
  function PadStart(s: string, n: nat, c: char): (r: string)
    ensures |r| == if |s| >= n then |s| else n
    ensures r[|r| - |s|..] == s
    ensures forall i :: 0 <= i < |r| - |s| ==> r[i] == c
  {
    if |s| >= n then s else Repeat(c, n - |s|) + s
  }

  const DigitChars: string := "0123456789" + "abcdefghijklmnopqrstuvwxyz"

  predicate ValidRadix(radix: nat) { 2 <= radix <= 36 }

  /** Value of a digit character in the given radix, if it is one. */
  function DigitValue(c: char): (v: nat)
    ensures v < 36 ==> DigitChars[v] == c
  {
    if '0' <= c <= '9' then (c as int) - ('0' as int)
    else if 'a' <= c <= 'z' then (c as int) - ('a' as int) + 10
    else 36
  }

  lemma DigitValueOfDigitChar(d: nat)
    requires d < 36
    ensures DigitValue(DigitChars[d]) == d
  {
    if d < 10 {
      assert DigitChars[d] == "0123456789"[d];
    } else {
      assert DigitChars[d] == "abcdefghijklmnopqrstuvwxyz"[d - 10];
    }
  }

  predicate IsDigitIn(c: char, radix: nat) { DigitValue(c) < radix }

  /** `n.toString(radix)` for a non-negative integer: lower-case digits, most significant first, "0" for zero. */
  function NumberToString(n: nat, radix: nat): (r: string)
    requires ValidRadix(radix)
    decreases n
  {
    if n < radix then [DigitChars[n]]
    else NumberToString(n / radix, radix) + [DigitChars[n % radix]]
  }

  /** Integer value of a non-empty run of digits in the given radix, most significant first (as `Number` and `parseInt` read it). */
  function ParseDigits(s: string, radix: nat): nat
  {
    if s == [] then 0
    else ParseDigits(s[..|s| - 1], radix) * radix + DigitValue(s[|s| - 1])
  }

  /** Every character `toString(radix)` produces is a digit of that radix, and there is at least one. */
  lemma {:induction false} NumberToStringDigits(n: nat, radix: nat)
    requires ValidRadix(radix)
    ensures |NumberToString(n, radix)| >= 1
    ensures forall i :: 0 <= i < |NumberToString(n, radix)| ==> IsDigitIn(NumberToString(n, radix)[i], radix)
    decreases n
  {
    if n < radix {
      DigitValueOfDigitChar(n);
    } else {
      NumberToStringDigits(n / radix, radix);
      DigitValueOfDigitChar(n % radix);
    }
  }

  lemma DivStep(n: nat, radix: nat)
    requires ValidRadix(radix) && n >= radix
    ensures n / radix < n && (n / radix) * radix + n % radix == n
  {
  }

  lemma ParseSnoc(p: string, c: char, radix: nat)
    ensures ParseDigits(p + [c], radix) == ParseDigits(p, radix) * radix + DigitValue(c)
  {
    assert (p + [c])[..|p|] == p;
  }

  /** Reading back what `toString(radix)` wrote gives the number. */
  lemma ParseNumberToStringStep(n: nat, radix: nat)
    requires ValidRadix(radix) && n >= radix
    requires ParseDigits(NumberToString(n / radix, radix), radix) == n / radix
    ensures ParseDigits(NumberToString(n, radix), radix) == n
  {
    var q, d := n / radix, n % radix;
    DivStep(n, radix);
    DigitValueOfDigitChar(d);
    ParseSnoc(NumberToString(q, radix), DigitChars[d], radix);
  }

  lemma {:induction false} ParseNumberToString(n: nat, radix: nat)
    requires ValidRadix(radix)
    ensures ParseDigits(NumberToString(n, radix), radix) == n
    decreases n
  {
    if n < radix {
      DigitValueOfDigitChar(n);
      ParseSnoc([], DigitChars[n], radix);
      assert NumberToString(n, radix) == [] + [DigitChars[n]];
    } else {
      DivStep(n, radix);
      ParseNumberToString(n / radix, radix);
      ParseNumberToStringStep(n, radix);
    }
  }

  /** A number below 256 is written with at most two hexadecimal digits. */
  lemma HexShort(n: nat)
    requires n < 256
    ensures |NumberToString(n, 16)| <= 2
  {
  }

  /** A thrown value: an `Error` with its message, or anything else. */
  datatype Thrown = ErrorObject(message: string) | OtherValue

  /** `err instanceof Error ? err.message : fallback`. */
  function ErrorText(t: Thrown, fallback: string): string {
    match t
    case ErrorObject(m) => m
    case OtherValue => fallback
  }

  /** How an awaited call ends: with a value or by throwing. */
  datatype Outcome<+T> = Returned(value: T) | Threw(thrown: Thrown)
}
