/**
 * The handful of JavaScript string and number primitives the application
 * leans on, over `string` (a sequence of `char`): decimal rendering of
 * integers (`Number.prototype.toString`), `parseInt`, `String.prototype.trim`,
 * `split(sep)[0]`, `slice(-n)` and `padStart`.
 */
module Text {
  import opened Wrappers

  predicate IsDigit(c: char) {
    '0' <= c <= '9'
  }

  predicate IsDigits(s: string) {
    forall i :: 0 <= i < |s| ==> IsDigit(s[i])
  }

  function DigitValue(c: char): (d: nat)
    requires IsDigit(c)
    ensures d < 10
  {
    c as int - '0' as int
  }

  function DigitChar(d: nat): (c: char)
    requires d < 10
    ensures IsDigit(c) && DigitValue(c) == d
  {
    ('0' as int + d) as char
  }

  function Pow10(k: nat): (p: nat)
    ensures p >= 1
  {
    if k == 0 then 1 else 10 * Pow10(k - 1)
  }

  /** Decimal rendering of a natural number: digits only, no leading zero. */
  function NatToString(n: nat): (s: string)
    ensures |s| >= 1 && IsDigits(s)
    ensures (s[0] == '0') == (n == 0)
    decreases n
  {
    if n < 10 then [DigitChar(n)] else NatToString(n / 10) + [DigitChar(n % 10)]
  }

  /** The number a string of decimal digits denotes (leading zeros allowed). */
  function DigitsToNat(s: string): (n: nat)
    requires IsDigits(s)
    ensures n < Pow10(|s|)
  {
    if s == [] then 0
    else
      var m := DigitsToNat(s[..|s| - 1]);
      var d := DigitValue(s[|s| - 1]);
      assert m + 1 <= Pow10(|s| - 1);
      assert 10 * m + d < 10 * (m + 1);
      10 * m + d
  }

  /** Reading back the decimal rendering of `n` gives `n`. */
  lemma {:induction false} DigitsToNatOfNatToString(n: nat)
    ensures DigitsToNat(NatToString(n)) == n
    decreases n
  {
    if n >= 10 {
      var s := NatToString(n);
      assert s[..|s| - 1] == NatToString(n / 10);
      DigitsToNatOfNatToString(n / 10);
    }
  }

  /** The value of a concatenation of digit strings. */
  lemma {:induction false} DigitsToNatAppend(a: string, b: string)
    requires IsDigits(a) && IsDigits(b)
    ensures IsDigits(a + b)
    ensures DigitsToNat(a + b) == DigitsToNat(a) * Pow10(|b|) + DigitsToNat(b)
    decreases |b|
  {
    assert IsDigits(a + b);
    if b != [] {
      DigitsToNatAppend(a, b[..|b| - 1]);
      AppendStep(a, b);
    } else {
      assert a + b == a;
    }
  }

  /** The inductive step of DigitsToNatAppend: one more digit at the end of `b`. */
  lemma AppendStep(a: string, b: string)
    requires IsDigits(a) && IsDigits(b) && b != []
    requires IsDigits(a + b[..|b| - 1])
    requires DigitsToNat(a + b[..|b| - 1]) == DigitsToNat(a) * Pow10(|b| - 1) + DigitsToNat(b[..|b| - 1])
    ensures IsDigits(a + b)
    ensures DigitsToNat(a + b) == DigitsToNat(a) * Pow10(|b|) + DigitsToNat(b)
  {
    var b' := b[..|b| - 1];
    var d := DigitValue(b[|b| - 1]);
    var x, p, y := DigitsToNat(a), Pow10(|b'|), DigitsToNat(b');
    assert DigitsToNat(a + b) == 10 * DigitsToNat(a + b') + d by {
      assert (a + b)[..|a + b| - 1] == a + b';
      assert (a + b)[|a + b| - 1] == b[|b| - 1];
    }
    assert DigitsToNat(b) == 10 * y + d;
    assert Pow10(|b|) == 10 * p;
    ShiftDigit(DigitsToNat(a + b), DigitsToNat(b), Pow10(|b|), x, p, y, d);
  }

  /** Appending a digit `d` to both `b'` and `a + b'` keeps the append equation. */
  lemma ShiftDigit(ab: int, b: int, pb: int, x: int, p: int, y: int, d: int)
    requires ab == 10 * (x * p + y) + d && b == 10 * y + d && pb == 10 * p
    ensures ab == x * pb + b
  {
  }

  /** A string of zeros is worth zero. */
  lemma {:induction false} DigitsToNatOfZeros(z: string)
    requires forall i :: 0 <= i < |z| ==> z[i] == '0'
    ensures IsDigits(z) && DigitsToNat(z) == 0
    decreases |z|
  {
    if z != [] {
      DigitsToNatOfZeros(z[..|z| - 1]);
    }
  }

  /** The decimal rendering has more than `k` digits exactly when `n >= 10^k`. */
  lemma {:induction false} NatToStringLength(n: nat, k: nat)
    requires n > 0
    ensures |NatToString(n)| > k <==> n >= Pow10(k)
    decreases n
  {
    if n >= 10 && k > 0 {
      NatToStringLength(n / 10, k - 1);
    }
  }

  /** The longest prefix of `s` made of decimal digits. */
  function LeadingDigits(s: string): (p: string)
    ensures IsDigits(p) && p <= s
    ensures |p| == |s| || !IsDigit(s[|p|])
  {
    if s == [] || !IsDigit(s[0]) then [] else [s[0]] + LeadingDigits(s[1..])
  }

  /** A digit string followed by a non-digit (or nothing) is its own leading-digit prefix. */
  lemma {:induction false} LeadingDigitsOfDigits(d: string, t: string)
    requires IsDigits(d)
    requires t == [] || !IsDigit(t[0])
    ensures LeadingDigits(d + t) == d
    decreases |d|
  {
    if d == [] {
      assert d + t == t;
    } else {
      assert (d + t)[1..] == d[1..] + t;
      LeadingDigitsOfDigits(d[1..], t);
    }
  }

  /**
   * The white space and line terminators that `String.prototype.trim` and
   * `parseInt` skip (ECMAScript WhiteSpace and LineTerminator).
   */
  predicate IsSpace(c: char) {
    || c == '\t' || c == '\n' || c == '\U{B}' || c == '\U{C}' || c == '\r'
    || c == ' ' || c == '\U{A0}' || c == '\U{1680}'
    || ('\U{2000}' <= c <= '\U{200A}')
    || c == '\U{2028}' || c == '\U{2029}' || c == '\U{202F}' || c == '\U{205F}'
    || c == '\U{3000}' || c == '\U{FEFF}'
  }

  /** `s` with its leading white space removed. */
  function TrimStart(s: string): (r: string)
    ensures |r| <= |s| && r == s[|s| - |r|..]
    ensures r == [] || !IsSpace(r[0])
  {
    if s == [] || !IsSpace(s[0]) then s else TrimStart(s[1..])
  }

  /** `s` with its trailing white space removed. */
  function TrimEnd(s: string): (r: string)
    ensures |r| <= |s| && r == s[..|r|]
    ensures r == [] || !IsSpace(r[|r| - 1])
  {
    if s == [] || !IsSpace(s[|s| - 1]) then s else TrimEnd(s[..|s| - 1])
  }

  /** What `TrimStart`, and so `Trim`, cuts off before the text is white space. */
  lemma {:induction false} LeadingSpace(s: string)
    ensures AllSpace(s[..|s| - |TrimStart(s)|])
  {
    if s != [] && IsSpace(s[0]) {
      LeadingSpace(s[1..]);
      SpaceBefore(s, |s| - |TrimStart(s)|);
    }
  }

  /** What `TrimEnd` cuts off is white space. */
  lemma {:induction false} TrailingSpace(s: string)
    ensures AllSpace(s[|TrimEnd(s)|..])
  {
    if s != [] && IsSpace(s[|s| - 1]) {
      TrailingSpace(s[..|s| - 1]);
      SpaceAfter(s, |TrimEnd(s)|);
    }
  }

  /** A space in front of a run of white space gives a longer run. */
  lemma SpaceBefore(s: string, n: nat)
    requires 0 < n <= |s| && IsSpace(s[0]) && AllSpace(s[1..][..n - 1])
    ensures AllSpace(s[..n])
  {
    var u := s[..n];
    forall j | 0 < j < |u|
      ensures IsSpace(u[j])
    {
      assert u[j] == s[1..][..n - 1][j - 1];
    }
  }

  /** A space after a run of white space gives a longer run. */
  lemma SpaceAfter(s: string, n: nat)
    requires n < |s| && IsSpace(s[|s| - 1]) && AllSpace(s[..|s| - 1][n..])
    ensures AllSpace(s[n..])
  {
    var u := s[n..];
    forall j | 0 <= j < |u| - 1
      ensures IsSpace(u[j])
    {
      assert u[j] == s[..|s| - 1][n..][j];
    }
  }

  /**
   * `String.prototype.trim`: the part of `s` left between the white space
   * at its start and the white space at its end.
   */
  function Trim(s: string): string {
    TrimEnd(TrimStart(s))
  }

  /** What trimming keeps is a contiguous slice of `s`, starting where the leading white space ends. */
  lemma {:induction false} TrimIsSlice(s: string)
    ensures var r, i := Trim(s), |s| - |TrimStart(s)|;
      i + |r| <= |s| && r == s[i..i + |r|]
  {
    InfixOfSuffix(s, TrimStart(s), Trim(s));
  }

  /** What `Trim` removes after its result is white space. */
  lemma {:induction false} TrimDropsTrailingSpace(s: string)
    ensures var r, i := Trim(s), |s| - |TrimStart(s)|;
      i + |r| <= |s| && AllSpace(s[i + |r|..])
  {
    var t := TrimStart(s);
    TrailingSpace(t);
    SpaceAfterInfix(s, t, TrimEnd(t));
  }

  /** A prefix `r` of a suffix `t` of `s` is the slice of `s` where it sits. */
  lemma InfixOfSuffix(s: string, t: string, r: string)
    requires |t| <= |s| && t == s[|s| - |t|..] && |r| <= |t| && r == t[..|r|]
    ensures var i := |s| - |t|; i + |r| <= |s| && r == s[i..i + |r|]
  {
    var i := |s| - |t|;
    assert forall j :: 0 <= j < |r| ==> r[j] == t[j] == s[i + j];
  }

  /** White space after `r` in the suffix `t` is white space after it in `s`. */
  lemma SpaceAfterInfix(s: string, t: string, r: string)
    requires |t| <= |s| && t == s[|s| - |t|..] && |r| <= |t| && r == t[..|r|]
    requires AllSpace(t[|r|..])
    ensures AllSpace(s[|s| - |t| + |r|..])
  {
    var u := s[|s| - |t| + |r|..];
    forall j | 0 <= j < |u|
      ensures IsSpace(u[j])
    {
      assert u[j] == t[|r|..][j];
    }
  }

  /** A trimmed string is empty or starts and ends with a non-space. */
  lemma TrimEnds(s: string)
    ensures var r := Trim(s); r == [] || (!IsSpace(r[0]) && !IsSpace(r[|r| - 1]))
  {
    var t := TrimStart(s);
    var r := TrimEnd(t);
    if r != [] {
      assert r[0] == t[0];
    }
  }

  /** Trimming gives the empty string exactly when `s` is all white space. */
  lemma TrimEmpty(s: string)
    ensures Trim(s) == [] <==> forall i :: 0 <= i < |s| ==> IsSpace(s[i])
  {
    if Trim(s) == [] {
      EmptyTrimIsAllSpace(s);
    }
    if forall i :: 0 <= i < |s| ==> IsSpace(s[i]) {
      AllSpaceTrimsToEmpty(s);
    }
  }

  /** Whatever trimming removed entirely was white space: it all went as leading space. */
  lemma EmptyTrimIsAllSpace(s: string)
    requires Trim(s) == []
    ensures forall i :: 0 <= i < |s| ==> IsSpace(s[i])
  {
    var t := TrimStart(s);
    if t != [] {
      TrailingSpace(t);
      assert false;
    }
    LeadingSpace(s);
    assert s[..|s| - |t|] == s;
  }

  /** A string of white space trims to nothing. */
  lemma AllSpaceTrimsToEmpty(s: string)
    requires forall i :: 0 <= i < |s| ==> IsSpace(s[i])
    ensures Trim(s) == []
  {
    var t := TrimStart(s);
    if t != [] {
      assert false;
    }
  }

  /** Trimming an already trimmed string changes nothing. */
  lemma TrimOfTrimmed(s: string)
    requires s == [] || (!IsSpace(s[0]) && !IsSpace(s[|s| - 1]))
    ensures Trim(s) == s
  {
  }

  /**
   * `parseInt(s)` with the default radix on decimal input: leading white
   * space, an optional sign, then the longest run of digits; None stands
   * for NaN (no digit at all).
   */
  function ParseInt(s: string): (r: Option<int>)
    ensures r.None? <==> LeadingDigits(SignFree(TrimStart(s))) == []
  {
    ParseSigned(TrimStart(s))
  }

  /** `parseInt` after the leading white space: an optional sign, then the digits. */
  function ParseSigned(t: string): (r: Option<int>)
    ensures r.None? <==> LeadingDigits(SignFree(t)) == []
  {
    var digits := LeadingDigits(SignFree(t));
    if digits == [] then None
    else
      var v: int := DigitsToNat(digits);
      if t[0] == '-' then Some(-v) else Some(v)
  }

  /** `t` with one leading `+` or `-` removed. */
  function SignFree(t: string): (r: string)
    ensures t != [] && t[0] in "+-" ==> r == t[1..]
    ensures !(t != [] && t[0] in "+-") ==> r == t
  {
    if t != [] && (t[0] == '+' || t[0] == '-') then t[1..] else t
  }

  /** Every character of `s` is white space. */
  predicate AllSpace(s: string) {
    forall i :: 0 <= i < |s| ==> IsSpace(s[i])
  }

  /**
   * `parseInt` of white space, an optional sign, a run of digits and then
   * anything that does not start with a digit: the digits' value, negated
   * after a minus sign; the text after the digits is ignored.
   */
  lemma ParseIntOfParts(ws: string, sign: string, d: string, rest: string)
    requires AllSpace(ws)
    requires sign == "" || sign == "+" || sign == "-"
    requires IsDigits(d) && d != []
    requires rest == [] || !IsDigit(rest[0])
    ensures ParseInt(ws + sign + d + rest) == Some(if sign == "-" then -(DigitsToNat(d) as int) else DigitsToNat(d) as int)
  {
    var s := ws + sign + d + rest;
    var t := sign + d + rest;
    assert s == ws + t;
    SignedDigits(sign, d, rest);
    TrimStartSkips(ws, t);
    LeadingDigitsOfDigits(d, rest);
    assert ParseInt(s) == ParseSigned(t);
    ParseSignedDigits(t, d);
  }

  /** ParseSigned once the digits after the sign are known. */
  lemma ParseSignedDigits(t: string, d: string)
    requires t != [] && LeadingDigits(SignFree(t)) == d && d != []
    ensures ParseSigned(t) == Some(if t[0] == '-' then -(DigitsToNat(d) as int) else DigitsToNat(d) as int)
  {
  }

  /** A sign and digits: the sign is dropped, and the text starts with `-` exactly after a minus. */
  lemma SignedDigits(sign: string, d: string, rest: string)
    requires sign == "" || sign == "+" || sign == "-"
    requires IsDigits(d) && d != []
    ensures var t := sign + d + rest;
      && t != [] && !IsSpace(t[0])
      && SignFree(t) == d + rest
      && (t[0] == '-' <==> sign == "-")
  {
    var t := sign + d + rest;
    if sign == "" {
      assert t == d + rest;
      assert t[0] == d[0];
    } else {
      assert t == [sign[0]] + (d + rest);
    }
  }

  /** Leading white space before a non-space is exactly what TrimStart removes. */
  lemma {:induction false} TrimStartSkips(ws: string, t: string)
    requires AllSpace(ws)
    requires t != [] && !IsSpace(t[0])
    ensures TrimStart(ws + t) == t
    decreases |ws|
  {
    var s := ws + t;
    if ws == [] {
      assert s == t;
    } else {
      assert s[0] == ws[0] && IsSpace(ws[0]);
      assert s[1..] == ws[1..] + t;
      assert TrimStart(s) == TrimStart(s[1..]);
      assert AllSpace(ws[1..]) by {
        assert forall i :: 0 <= i < |ws| - 1 ==> ws[1..][i] == ws[i + 1];
      }
      TrimStartSkips(ws[1..], t);
    }
  }

  /** `parseInt` reads back the decimal rendering of a natural number. */
  lemma ParseIntOfNatToString(n: nat)
    ensures ParseInt(NatToString(n)) == Some(n)
  {
    var s := NatToString(n);
    assert !IsSpace(s[0]);
    assert TrimStart(s) == s;
    assert SignFree(s) == s;
    LeadingDigitsOfDigits(s, []);
    assert s + [] == s;
    DigitsToNatOfNatToString(n);
  }

  /** JavaScript truthiness of a possibly missing string: present and non-empty. */
  predicate Truthy(s: Option<string>) {
    s.Some? && s.value != ""
  }

  /** `s.split(sep)[0]`: the part of `s` before the first `sep`, or all of `s`. */
  function BeforeFirst(s: string, sep: char): (r: string)
    ensures r <= s && sep !in r
    ensures |r| == |s| || s[|r|] == sep
  {
    if s == [] || s[0] == sep then [] else [s[0]] + BeforeFirst(s[1..], sep)
  }

  /** `s.slice(-n)` for `n > 0`: the last `n` characters, or all of `s` when shorter. */
  function TakeLast(s: string, n: nat): (r: string)
    requires n > 0
    ensures |r| == if |s| < n then |s| else n
    ensures r == s[|s| - |r|..]
  {
    if |s| <= n then s else s[|s| - n..]
  }

  /** `s.padStart(width, fill)` for a one-character `fill`. */
  function PadStart(s: string, width: nat, fill: char): (r: string)
    ensures |r| == if |s| < width then width else |s|
    ensures r[|r| - |s|..] == s
    ensures forall i :: 0 <= i < |r| - |s| ==> r[i] == fill
  {
    if |s| >= width then s else seq(width - |s|, _ => fill) + s
  }
}
