/**
 * The string primitives the worker relies on: `Number.prototype.toString(radix)`,
 * `String.prototype.padStart`, `Array.prototype.join` with a one-character
 * separator, and lower-casing of ASCII letters.
 */
module Text {

  /** Lower-case hexadecimal and decimal digits, as `toString(radix)` writes them. */
  predicate IsDigitChar(c: char) {
    '0' <= c <= '9' || 'a' <= c <= 'f'
  }

  predicate IsLowerHex(s: string) {
    forall i :: 0 <= i < |s| ==> IsDigitChar(s[i])
  }

  predicate IsDecimal(s: string) {
    forall i :: 0 <= i < |s| ==> '0' <= s[i] <= '9'
  }

  /** The value of one digit character; 0 for any other character. */
  function DigitValue(c: char): (d: nat)
    ensures d < 16
  {
    if '0' <= c <= '9' then c as int - '0' as int
    else if 'a' <= c <= 'f' then c as int - 'a' as int + 10
    else 0
  }

  /** The character `toString(radix)` uses for digit `d`. */
  function DigitChar(d: nat): (c: char)
    requires d < 16
    ensures IsDigitChar(c) && DigitValue(c) == d
    ensures d < 10 <==> '0' <= c <= '9'
  {
    if d < 10 then ('0' as int + d) as char else ('a' as int + d - 10) as char
  }

  /** The number a string of digits denotes in the given radix (most significant first). */
  function DigitsValue(s: string, radix: nat): nat
  {
    if s == [] then 0 else DigitsValue(s[..|s| - 1], radix) * radix + DigitValue(s[|s| - 1])
  }

  /**
   * `n.toString(radix)` for a non-negative integer `n`: its digits, most
   * significant first, with no leading zero.
   */
  function NumberToString(n: nat, radix: nat): (s: string)
    requires 2 <= radix <= 16
    ensures |s| >= 1
    ensures forall i :: 0 <= i < |s| ==> IsDigitChar(s[i])
    ensures radix <= 10 ==> IsDecimal(s)
    ensures |s| == 1 <==> n < radix
    decreases n
  {
    if n < radix then [DigitChar(n)]
    else
      DivStep(n, radix);
      NumberToString(n / radix, radix) + [DigitChar(n % radix)]
  }

  /** The digits read back to the number, and only zero is written with a leading `0`. */
  lemma {:induction false} NumberToStringValue(n: nat, radix: nat)
    requires 2 <= radix <= 16
    ensures DigitsValue(NumberToString(n, radix), radix) == n
    ensures NumberToString(n, radix)[0] == '0' ==> n == 0
    decreases n
  {
    if n >= radix {
      DivStep(n, radix);
      var high := NumberToString(n / radix, radix);
      var low := DigitChar(n % radix);
      NumberToStringValue(n / radix, radix);
      assert NumberToString(n, radix) == high + [low];
      assert (high + [low])[..|high|] == high;
      assert DigitsValue(high + [low], radix) == DigitsValue(high, radix) * radix + DigitValue(low);
    }
  }

  lemma DivStep(n: nat, radix: nat)
    requires 2 <= radix && n >= radix
    ensures 1 <= n / radix < n
    ensures n % radix < radix
    ensures (n / radix) * radix + n % radix == n
  {
  }

  /** A decimal count needs more than two digits exactly when it is 100 or more. */
  lemma DecimalWidth(n: nat)
    ensures |NumberToString(n, 10)| <= 2 <==> n < 100
  {
  }

  function Repeat(c: char, k: nat): (r: string)
    ensures |r| == k && forall i :: 0 <= i < k ==> r[i] == c
  {
    if k == 0 then [] else [c] + Repeat(c, k - 1)
  }

  /** Leading zeros do not change the value of a digit string. */
  lemma {:induction false} LeadingZerosValue(k: nat, s: string, radix: nat)
    ensures DigitsValue(Repeat('0', k) + s, radix) == DigitsValue(s, radix)
    decreases |s|
  {
    if s == [] {
      ZerosValue(k, radix);
      assert Repeat('0', k) + s == Repeat('0', k);
    } else {
      var t := Repeat('0', k) + s;
      assert t[..|t| - 1] == Repeat('0', k) + s[..|s| - 1];
      assert t[|t| - 1] == s[|s| - 1];
      LeadingZerosValue(k, s[..|s| - 1], radix);
    }
  }

  lemma {:induction false} ZerosValue(k: nat, radix: nat)
    ensures DigitsValue(Repeat('0', k), radix) == 0
  {
    if k > 0 {
      assert Repeat('0', k)[..k - 1] == Repeat('0', k - 1);
      ZerosValue(k - 1, radix);
    }
  }

  /**
   * `s.padStart(width, [c])`: `s` itself when it is already `width` long or longer,
   * otherwise `s` preceded by as many copies of `c` as make it `width` long.
   */
  function PadStart(s: string, width: nat, c: char): (r: string)
    ensures |r| == if |s| >= width then |s| else width
    ensures r[|r| - |s|..] == s
    ensures forall i :: 0 <= i < |r| - |s| ==> r[i] == c
  {
    if |s| >= width then s else Repeat(c, width - |s|) + s
  }

  /** Zero padding keeps the number a digit string denotes. */
  lemma PadStartValue(s: string, width: nat, radix: nat)
    ensures DigitsValue(PadStart(s, width, '0'), radix) == DigitsValue(s, radix)
  {
    if |s| < width {
      LeadingZerosValue(width - |s|, s, radix);
    }
  }

  lemma PadStartDecimal(s: string, width: nat)
    requires IsDecimal(s)
    ensures IsDecimal(PadStart(s, width, '0'))
  {
  }

  /**
   * `xs.join(sep)` for a one-character separator. When no element contains the
   * separator, the result holds one separator fewer than there are elements, and
   * it is empty exactly when the list is empty or is one empty string.
   */
  function Join(xs: seq<string>, sep: char): (r: string)
    ensures (forall i :: 0 <= i < |xs| ==> sep !in xs[i]) ==>
              multiset(r)[sep] == if xs == [] then 0 else |xs| - 1
    ensures r == "" <==> xs == [] || xs == [""]
  {
    if xs == [] then ""
    else if |xs| == 1 then
      assert sep !in xs[0] ==> multiset(xs[0])[sep] == 0;
      xs[0]
    else
      var rest := Join(xs[1..], sep);
      assert forall i :: 1 <= i < |xs| ==> xs[1..][i - 1] == xs[i];
      assert sep !in xs[0] ==> multiset(xs[0])[sep] == 0;
      assert multiset(xs[0] + [sep] + rest) == multiset(xs[0]) + multiset([sep]) + multiset(rest);
      xs[0] + [sep] + rest
  }

  /** `s.split(sep)` for a one-character separator: the pieces between separators. */
  function Split(s: string, sep: char): (pieces: seq<string>)
    ensures |pieces| >= 1
  {
    if s == [] then [""]
    else
      var rest := Split(s[1..], sep);
      if s[0] == sep then [""] + rest else [[s[0]] + rest[0]] + rest[1..]
  }

  /** A separator-free prefix joins the first piece of what follows it. */
  lemma {:induction false} SplitAfterPlain(x: string, t: string, sep: char)
    requires sep !in x
    ensures Split(x + t, sep) == [x + Split(t, sep)[0]] + Split(t, sep)[1..]
    decreases |x|
  {
    if x != [] {
      assert (x + t)[1..] == x[1..] + t;
      assert x[0] != sep;
      SplitAfterPlain(x[1..], t, sep);
      assert [x[0]] + (x[1..] + Split(t, sep)[0]) == x + Split(t, sep)[0];
    } else {
      var p := Split(t, sep);
      assert x + t == t;
      assert x + p[0] == p[0];
      assert [x + p[0]] + p[1..] == p;
    }
  }

  /**
   * Joining a non-empty list of separator-free strings can be undone: the joined
   * string determines the list.
   */
  lemma {:induction false} SplitJoin(xs: seq<string>, sep: char)
    requires xs != []
    requires forall i :: 0 <= i < |xs| ==> sep !in xs[i]
    ensures Split(Join(xs, sep), sep) == xs
    decreases |xs|
  {
    if |xs| == 1 {
      SplitAfterPlain(xs[0], "", sep);
      assert xs[0] + "" == xs[0];
    } else {
      var rest := Join(xs[1..], sep);
      SplitJoin(xs[1..], sep);
      assert xs[0] + [sep] + rest == xs[0] + ([sep] + rest);
      SplitAfterPlain(xs[0], [sep] + rest, sep);
      assert ([sep] + rest)[1..] == rest;
      assert Split([sep] + rest, sep) == [""] + xs[1..];
      assert xs[0] + "" == xs[0];
      assert [xs[0] + ""] + xs[1..] == xs;
    }
  }

  /** `toLowerCase` on one character, for ASCII letters. */
  function LowerAscii(c: char): (l: char)
    ensures 'A' <= c <= 'Z' ==> 'a' <= l <= 'z' && l as int - 'a' as int == c as int - 'A' as int
    ensures !('A' <= c <= 'Z') ==> l == c
  {
    if 'A' <= c <= 'Z' then (c as int - 'A' as int + 'a' as int) as char else c
  }

  /** `s.toLowerCase()` for ASCII text. */
  function ToLowerAscii(s: string): (r: string)
    ensures |r| == |s|
    ensures forall i :: 0 <= i < |s| ==> r[i] == LowerAscii(s[i])
  {
    if s == [] then [] else [LowerAscii(s[0])] + ToLowerAscii(s[1..])
  }
}
