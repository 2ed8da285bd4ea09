/**
 * The JavaScript string built-ins the handlers and pages rely on:
 * `String#trim`, `String#split` / `Array#join` on one separator character,
 * `Number#toString` on non-negative integers, `parseInt` without a radix,
 * and `String#length` (which counts UTF-16 code units, not characters).
 */
module Text {
  import opened Wrappers

  /** JavaScript WhiteSpace and LineTerminator code points: what `trim` removes and what `\s` matches. */
  predicate IsJsSpace(c: char) {
    var n := c as int;
    n == 0x09 || n == 0x0A || n == 0x0B || n == 0x0C || n == 0x0D || n == 0x20 || n == 0xA0
    || n == 0x1680 || (0x2000 <= n <= 0x200A) || n == 0x2028 || n == 0x2029 || n == 0x202F
    || n == 0x205F || n == 0x3000 || n == 0xFEFF
  }

  predicate AllSpace(s: string) {
    forall i :: 0 <= i < |s| ==> IsJsSpace(s[i])
  }

  /** The number of white-space characters at the front of `s`. */
  function LeadingSpace(s: string): (n: nat)
    ensures n <= |s|
  {
    if |s| > 0 && IsJsSpace(s[0]) then 1 + LeadingSpace(s[1..]) else 0
  }

  /** The leading run is white space and ends at the first other character. */
  lemma {:induction false} LeadingSpaceSpec(s: string)
    ensures forall i :: 0 <= i < LeadingSpace(s) ==> IsJsSpace(s[i])
    ensures LeadingSpace(s) < |s| ==> !IsJsSpace(s[LeadingSpace(s)])
  {
    if |s| > 0 && IsJsSpace(s[0]) {
      var rest := s[1..];
      LeadingSpaceSpec(rest);
      forall i | 0 < i < LeadingSpace(s) ensures IsJsSpace(s[i]) {
        assert s[i] == rest[i - 1];
      }
      if LeadingSpace(s) < |s| {
        assert s[LeadingSpace(s)] == rest[LeadingSpace(rest)];
      }
    }
  }

  /** The number of white-space characters at the end of `s`. */
  function TrailingSpace(s: string): (n: nat)
    ensures n <= |s|
  {
    if |s| > 0 && IsJsSpace(s[|s| - 1]) then 1 + TrailingSpace(s[..|s| - 1]) else 0
  }

  /** The trailing run is white space and starts after the last other character. */
  lemma {:induction false} TrailingSpaceSpec(s: string)
    ensures forall i :: |s| - TrailingSpace(s) <= i < |s| ==> IsJsSpace(s[i])
    ensures TrailingSpace(s) < |s| ==> !IsJsSpace(s[|s| - 1 - TrailingSpace(s)])
  {
    if |s| > 0 && IsJsSpace(s[|s| - 1]) {
      var init := s[..|s| - 1];
      TrailingSpaceSpec(init);
      forall i | |s| - TrailingSpace(s) <= i < |s| - 1 ensures IsJsSpace(s[i]) {
        assert s[i] == init[i];
      }
      if TrailingSpace(s) < |s| {
        assert s[|s| - 1 - TrailingSpace(s)] == init[|init| - 1 - TrailingSpace(init)];
      }
    }
  }

  /** Drops the leading white space. */
  function TrimStart(s: string): string
  {
    s[LeadingSpace(s)..]
  }

  /** Drops the trailing white space. */
  function TrimEnd(s: string): string
  {
    s[..|s| - TrailingSpace(s)]
  }

  /** `s.trim()`: `s` without its leading and trailing white space. */
  function Trim(s: string): string
  {
    TrimEnd(TrimStart(s))
  }

  /**
   * The trimmed text is the stretch of `s` after its leading white space and before its trailing
   * white space, and it neither starts nor ends with white space.
   */
  lemma TrimSpec(s: string)
    ensures LeadingSpace(s) + |Trim(s)| <= |s|
    ensures forall i :: 0 <= i < |Trim(s)| ==> Trim(s)[i] == s[LeadingSpace(s) + i]
    ensures forall i :: 0 <= i < LeadingSpace(s) ==> IsJsSpace(s[i])
    ensures forall i :: LeadingSpace(s) + |Trim(s)| <= i < |s| ==> IsJsSpace(s[i])
    ensures Trim(s) == [] || (!IsJsSpace(Trim(s)[0]) && !IsJsSpace(Trim(s)[|Trim(s)| - 1]))
  {
    LeadingSpaceSpec(s);
    TrimTail(s);
    if Trim(s) != [] {
      assert Trim(s)[0] == s[LeadingSpace(s)];
    }
  }

  /** What `trim` drops at the end is white space, and what it keeps does not end with any. */
  lemma TrimTail(s: string)
    ensures forall i :: LeadingSpace(s) + |Trim(s)| <= i < |s| ==> IsJsSpace(s[i])
    ensures Trim(s) == [] || !IsJsSpace(Trim(s)[|Trim(s)| - 1])
  {
    var lo := LeadingSpace(s);
    var t := TrimStart(s);
    var r := Trim(s);
    TrailingSpaceSpec(t);
    forall i | lo + |r| <= i < |s| ensures IsJsSpace(s[i]) {
      assert s[i] == t[i - lo];
    }
    if r != [] {
      assert r[|r| - 1] == t[|t| - 1 - TrailingSpace(t)];
    }
  }

  /** `!s.trim()` holds exactly when every character of `s` is white space. */
  lemma TrimEmptyIffAllSpace(s: string)
    ensures Trim(s) == [] <==> AllSpace(s)
  {
    TrimSpec(s);
    if Trim(s) != [] {
      assert Trim(s)[0] == s[LeadingSpace(s)];
    }
  }

  /** Trimming twice is trimming once. */
  lemma TrimIdempotent(s: string)
    ensures Trim(Trim(s)) == Trim(s)
  {
    var r := Trim(s);
    TrimSpec(s);
    assert LeadingSpace(r) == 0 && TrimStart(r) == r;
    assert TrailingSpace(r) == 0 && TrimEnd(r) == r;
  }

  // ---------------------------------------------------------------------------------------------
  // split / join on one separator character

  /** `s.split(d)`: the maximal runs between separators, always at least one (possibly empty) part. */
  function Split(s: string, d: char): (parts: seq<string>)
    ensures |parts| >= 1
    ensures forall k :: 0 <= k < |parts| ==> d !in parts[k]
    decreases |s|
  {
    if |s| == 0 then [""]
    else
      var rest := Split(s[1..], d);
      if s[0] == d then [""] + rest else [[s[0]] + rest[0]] + rest[1..]
  }

  /** `parts.join(d)`. */
  function Join(parts: seq<string>, d: char): (s: string)
    decreases |parts|
  {
    if |parts| == 0 then ""
    else if |parts| == 1 then parts[0]
    else parts[0] + [d] + Join(parts[1..], d)
  }

  /** Splitting and joining on the same separator gives the string back. */
  lemma {:induction false} JoinSplit(s: string, d: char)
    ensures Join(Split(s, d), d) == s
    decreases |s|
  {
    if |s| > 0 {
      var rest := Split(s[1..], d);
      JoinSplit(s[1..], d);
      if s[0] == d {
        assert Split(s, d) == [""] + rest;
        assert ([""] + rest)[1..] == rest;
      } else {
        var parts := [[s[0]] + rest[0]] + rest[1..];
        assert Split(s, d) == parts;
        if |rest| == 1 {
          assert Join(rest, d) == rest[0];
        } else {
          assert parts[1..] == rest[1..];
          assert Join(rest, d) == rest[0] + [d] + Join(rest[1..], d);
        }
      }
    }
  }

  /** A string without the separator splits into itself alone. */
  lemma {:induction false} SplitWithoutSeparator(s: string, d: char)
    requires d !in s
    ensures Split(s, d) == [s]
    decreases |s|
  {
    if |s| > 0 {
      assert d !in s[1..] by { forall k | 0 <= k < |s| - 1 ensures s[1..][k] != d { assert s[1..][k] == s[k + 1]; } }
      SplitWithoutSeparator(s[1..], d);
      assert [s[0]] + s[1..] == s;
    }
  }

  /** The first part is the text before the first separator; the other parts split what follows it. */
  lemma {:induction false} SplitAtFirst(a: string, d: char, b: string)
    requires d !in a
    ensures Split(a + [d] + b, d) == [a] + Split(b, d)
    decreases |a|
  {
    if |a| == 0 {
      assert a + [d] + b == [d] + b;
      assert ([d] + b)[1..] == b;
    } else {
      var s := a + [d] + b;
      assert s[1..] == a[1..] + [d] + b;
      assert d !in a[1..] by { forall k | 0 <= k < |a| - 1 ensures a[1..][k] != d { assert a[1..][k] == a[k + 1]; } }
      SplitAtFirst(a[1..], d, b);
      assert [a[0]] + a[1..] == a;
    }
  }

  // ---------------------------------------------------------------------------------------------
  // Number#toString and parseInt

  function DigitChar(v: nat): (c: char)
    requires v < 10
    ensures '0' <= c <= '9' && (c as int) - ('0' as int) == v
  {
    ('0' as int + v) as char
  }

  /** `n.toString()` for a non-negative integer: its decimal digits, no sign, no leading zero. */
  function DecimalString(n: nat): (s: string)
    ensures |s| >= 1
    ensures forall k :: 0 <= k < |s| ==> '0' <= s[k] <= '9'
    ensures |s| > 1 ==> s[0] != '0'
  {
    if n < 10 then [DigitChar(n)] else DecimalString(n / 10) + [DigitChar(n % 10)]
  }

  /** The value of `c` as a digit in bases up to 36, or 36 when it is not a digit at all. */
  function DigitValue(c: char): (v: nat)
    ensures v <= 36
  {
    if '0' <= c <= '9' then (c as int) - ('0' as int)
    else if 'a' <= c <= 'z' then (c as int) - ('a' as int) + 10
    else if 'A' <= c <= 'Z' then (c as int) - ('A' as int) + 10
    else 36
  }

  /** The number of leading characters of `s` that are digits in `radix`. */
  function DigitRun(s: string, radix: nat): (k: nat)
    ensures k <= |s|
    ensures forall i :: 0 <= i < k ==> DigitValue(s[i]) < radix
    ensures k < |s| ==> DigitValue(s[k]) >= radix
  {
    if |s| > 0 && DigitValue(s[0]) < radix then 1 + DigitRun(s[1..], radix) else 0
  }

  /** The value of a run of digits in `radix`, most significant first. */
  function DigitsValue(s: string, radix: nat): nat
  {
    if |s| == 0 then 0 else DigitsValue(s[..|s| - 1], radix) * radix + DigitValue(s[|s| - 1])
  }

  /**
   * `parseInt(s)` without a radix: leading white space is skipped, one sign is read,
   * a `0x`/`0X` prefix selects base 16, then the longest run of digits is read.
   * No digits gives NaN, modelled as None.
   */
  function ParseInt(s: string): (r: Option<int>)
  {
    var t := TrimStart(s);
    if |t| > 0 && t[0] == '-' then
      match ParseUnsigned(t[1..])
      case None => None
      case Some(v) => Some(-(v as int))
    else if |t| > 0 && t[0] == '+' then ParseUnsigned(t[1..])
    else ParseUnsigned(t)
  }

  /** The unsigned part of `parseInt`: a `0x`/`0X` prefix selects base 16, otherwise base 10. */
  function ParseUnsigned(u: string): (r: Option<nat>)
  {
    if |u| >= 2 && u[0] == '0' && (u[1] == 'x' || u[1] == 'X') then ParseDigits(u[2..], 16)
    else ParseDigits(u, 10)
  }

  /** The longest run of digits at the front of `u`, read in `radix`; None when there is none. */
  function ParseDigits(u: string, radix: nat): (r: Option<nat>)
  {
    var k := DigitRun(u, radix);
    if k == 0 then None else Some(DigitsValue(u[..k], radix))
  }

  lemma {:induction false} DigitRunAllDigits(s: string)
    requires forall i :: 0 <= i < |s| ==> '0' <= s[i] <= '9'
    ensures DigitRun(s, 10) == |s|
    decreases |s|
  {
    if |s| > 0 {
      DigitRunAllDigits(s[1..]);
    }
  }

  lemma {:induction false} DigitsValueOfDecimal(n: nat)
    ensures DigitsValue(DecimalString(n), 10) == n
  {
    if n >= 10 {
      var s := DecimalString(n);
      assert s[..|s| - 1] == DecimalString(n / 10);
      DigitsValueOfDecimal(n / 10);
    }
  }

  lemma ParseDigitsDecimal(n: nat)
    ensures ParseDigits(DecimalString(n), 10) == Some(n)
  {
    var s := DecimalString(n);
    DigitRunAllDigits(s);
    assert s[..|s|] == s;
    DigitsValueOfDecimal(n);
  }

  /** `parseInt(n.toString()) === n`: an id rendered as a string reads back as the same id. */
  lemma ParseIntDecimal(n: nat)
    ensures ParseInt(DecimalString(n)) == Some(n)
  {
    var s := DecimalString(n);
    assert !IsJsSpace(s[0]) && s[0] != '-' && s[0] != '+' by { assert '0' <= s[0] <= '9'; }
    assert TrimStart(s) == s;
    assert ParseUnsigned(s) == ParseDigits(s, 10) by {
      if |s| >= 2 { assert '0' <= s[1] <= '9'; }
    }
    ParseDigitsDecimal(n);
  }

  /** A rendered number holds no separator such as ':' or white space. */
  lemma DecimalStringHasNo(n: nat, c: char)
    requires !('0' <= c <= '9')
    ensures c !in DecimalString(n)
  {
  }

  // ---------------------------------------------------------------------------------------------
  // String#length

  /** `s.length`: characters outside the Basic Multilingual Plane count as two UTF-16 code units. */
  function Utf16Length(s: string): (n: nat)
    ensures |s| <= n <= 2 * |s|
  {
    if |s| == 0 then 0 else (if s[0] as int > 0xFFFF then 2 else 1) + Utf16Length(s[1..])
  }
}
