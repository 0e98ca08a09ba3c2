/**
 * String primitives of the JavaScript runtime that the registry code relies on:
 * `trim`, `toLowerCase`, `includes`, `split`, `join`, regular-expression
 * replacement of whitespace and non-digits, `parseInt` and number printing.
 */
module Text {
  import opened Wrappers
  import Seqs

  /** The characters of the JavaScript `\s` class; `String.prototype.trim` strips exactly these. */
  predicate IsSpace(c: char) {
    || c == '\t' || c == '\n' || c == '\U{000B}' || c == '\U{000C}' || c == '\r' || c == ' '
    || c == '\U{00A0}' || c == '\U{1680}' || ('\U{2000}' <= c <= '\U{200A}')
    || c == '\U{2028}' || c == '\U{2029}' || c == '\U{202F}' || c == '\U{205F}'
    || c == '\U{3000}' || c == '\U{FEFF}'
  }

  /** The characters of the JavaScript `\d` class. */
  predicate IsDigit(c: char) {
    '0' <= c <= '9'
  }

  predicate AllSpace(s: string) {
    forall i :: 0 <= i < |s| ==> IsSpace(s[i])
  }

  predicate NoSpace(s: string) {
    forall i :: 0 <= i < |s| ==> !IsSpace(s[i])
  }

  lemma NoSpaceConcat(a: string, b: string)
    requires NoSpace(a) && NoSpace(b)
    ensures NoSpace(a + b)
  {
    forall i | 0 <= i < |a + b| ensures !IsSpace((a + b)[i]) {
      if i < |a| { assert (a + b)[i] == a[i]; } else { assert (a + b)[i] == b[i - |a|]; }
    }
  }

  predicate AllDigits(s: string) {
    forall i :: 0 <= i < |s| ==> IsDigit(s[i])
  }

  /**
   * `s.length`: JavaScript counts UTF-16 code units, so a character above U+FFFF
   * (a surrogate pair) counts twice.
   */
  function Utf16Length(s: string): (n: nat)
    ensures |s| <= n <= 2 * |s|
    ensures n == |s| <==> forall i :: 0 <= i < |s| ==> s[i] as int <= 0xFFFF
  {
    if s == [] then 0
    else
      var n := Units(s[0]) + Utf16Length(s[1..]);
      assert forall i :: 1 <= i < |s| ==> s[i] == s[1..][i - 1];
      n
  }

  /** The UTF-16 code units of one character: two above U+FFFF, otherwise one. */
  function Units(c: char): (n: nat)
    ensures n == 1 || n == 2
    ensures n == 2 <==> c as int > 0xFFFF
  {
    if c as int > 0xFFFF then 2 else 1
  }

  /**
   * `s.slice(0, n)` on a JavaScript string: the longest prefix of at most `n` code
   * units. A character whose two units straddle the cut is left out whole.
   */
  function Utf16Prefix(s: string, n: nat): (r: string)
    ensures |r| <= |s| && r == s[..|r|]
    ensures Utf16Length(r) <= n
    ensures |r| < |s| ==> Utf16Length(r) + Units(s[|r|]) > n
    ensures Utf16Length(s) <= n ==> r == s
  {
    if s == [] || Units(s[0]) > n then []
    else
      var rest := Utf16Prefix(s[1..], n - Units(s[0]));
      var r := [s[0]] + rest;
      assert r[0] == s[0] && r[1..] == rest;
      assert s[..|r|] == [s[0]] + s[1..][..|rest|];
      assert |r| < |s| ==> s[|r|] == s[1..][|rest|];
      r
  }

  /** On text without surrogate pairs, the unit cut is the plain character cut. */
  lemma {:induction false} Utf16PrefixBasic(s: string, n: nat)
    requires forall i :: 0 <= i < |s| ==> s[i] as int <= 0xFFFF
    ensures Utf16Prefix(s, n) == s[..if |s| <= n then |s| else n]
  {
    var r := Utf16Prefix(s, n);
    assert Utf16Length(r) == |r| by {
      assert forall i :: 0 <= i < |r| ==> r[i] == s[i];
    }
    if |r| < |s| {
      assert Units(s[|r|]) == 1;
    }
  }

  /** Text made only of surrogate pairs keeps half as many characters as units allowed. */
  lemma {:induction false} Utf16PrefixPairs(s: string, n: nat)
    requires forall i :: 0 <= i < |s| ==> s[i] as int > 0xFFFF
    ensures |Utf16Prefix(s, n)| == if |s| <= n / 2 then |s| else n / 2
  {
    if s != [] && Units(s[0]) <= n {
      assert forall i :: 0 <= i < |s[1..]| ==> s[1..][i] == s[i + 1];
      Utf16PrefixPairs(s[1..], n - 2);
    }
  }

  /** Two emoji are four code units long. */
  lemma SurrogatePairsCountTwice()
    ensures Utf16Length("\U{1F600}\U{1F600}") == 4
  {
    assert "\U{1F600}\U{1F600}"[1..] == "\U{1F600}";
  }

  /** `s.trimStart()`: the suffix left after dropping the leading whitespace run. */
  function TrimStart(s: string): (r: string)
    ensures |r| <= |s| && r == s[|s| - |r|..]
    ensures r == [] || !IsSpace(r[0])
  {
    if s == [] || !IsSpace(s[0]) then s else TrimStart(s[1..])
  }

  /** What `trimStart` drops is whitespace only. */
  lemma {:induction false} TrimStartDropsSpaces(s: string)
    ensures AllSpace(s[..|s| - |TrimStart(s)|])
  {
    if s != [] && IsSpace(s[0]) {
      TrimStartDropsSpaces(s[1..]);
      SpacePrefix(s, |s| - |TrimStart(s)|);
    }
  }

  /** A space followed by a run of spaces is a run of spaces. */
  lemma SpacePrefix(s: string, n: nat)
    requires 0 < n <= |s| && IsSpace(s[0]) && AllSpace(s[1..][..n - 1])
    ensures AllSpace(s[..n])
  {
    forall i | 1 <= i < n ensures IsSpace(s[i]) {
      assert s[i] == s[1..][..n - 1][i - 1];
    }
  }

  /** `s.trimEnd()`: the prefix left after dropping the trailing whitespace run. */
  function TrimEnd(s: string): (r: string)
    ensures |r| <= |s| && r == s[..|r|]
    ensures r == [] || !IsSpace(r[|r| - 1])
  {
    if s == [] || !IsSpace(s[|s| - 1]) then s else TrimEnd(s[..|s| - 1])
  }

  /** What `trimEnd` drops is whitespace only. */
  lemma {:induction false} TrimEndDropsSpaces(s: string)
    ensures AllSpace(s[|TrimEnd(s)|..])
  {
    if s != [] && IsSpace(s[|s| - 1]) {
      var p := s[..|s| - 1];
      TrimEndDropsSpaces(p);
      var n := |TrimEnd(s)|;
      forall i | n <= i < |s| ensures IsSpace(s[i]) {
        if i < |s| - 1 {
          assert s[i] == p[n..][i - n];
        }
      }
    }
  }

  /** `s.trim()` */
  function Trim(s: string): (r: string)
    ensures |r| <= |s|
    ensures r == [] <==> AllSpace(s)
    ensures r != [] ==> !IsSpace(r[0]) && !IsSpace(r[|r| - 1])
  {
    var t := TrimStart(s);
    var r := TrimEnd(t);
    TrimStartDropsSpaces(s);
    TrimEndDropsSpaces(t);
    assert r == [] ==> AllSpace(s) by {
      if r == [] {
        assert s == s[..|s| - |t|] + t;
        assert t == t[|r|..];
      }
    }
    r
  }

  /**
   * `toLowerCase` on one character. Basic Latin and Latin-1 capitals (the alphabet of
   * Portuguese names) are mapped; every other character is left unchanged.
   */
  function Lower(c: char): (d: char)
    ensures 'A' <= c <= 'Z' ==> 'a' <= d <= 'z'
    ensures !('A' <= c <= 'Z') && !('\U{00C0}' <= c <= '\U{00DE}') ==> d == c
  {
    if 'A' <= c <= 'Z' || ('\U{00C0}' <= c <= '\U{00DE}' && c != '\U{00D7}') then (c as int + 32) as char else c
  }

  /** `s.toLowerCase()` */
  function LowerStr(s: string): (r: string)
    ensures |r| == |s|
  {
    seq(|s|, i requires 0 <= i < |s| => Lower(s[i]))
  }

  /** Lowering is idempotent: a lowered string has no capitals left. */
  lemma LowerStrIdempotent(s: string)
    ensures LowerStr(LowerStr(s)) == LowerStr(s)
  {
    forall i | 0 <= i < |s|
      ensures Lower(Lower(s[i])) == Lower(s[i])
    {
    }
  }

  /** `s.startsWith(p)` */
  predicate StartsWith(s: string, p: string) {
    |p| <= |s| && s[..|p|] == p
  }

  /** `t` occurs in `s` starting at index `i`. */
  predicate OccursAt(s: string, t: string, i: int) {
    0 <= i <= |s| - |t| && s[i..i + |t|] == t
  }

  /** `s.includes(t)`: some window of `s` equals `t`. */
  function Contains(s: string, t: string): (b: bool)
    ensures b <==> exists i :: OccursAt(s, t, i)
  {
    if StartsWith(s, t) then
      assert OccursAt(s, t, 0);
      true
    else if s == [] then
      false
    else
      var b := Contains(s[1..], t);
      assert b ==> exists i :: OccursAt(s, t, i) by {
        if b {
          var j :| OccursAt(s[1..], t, j);
          assert s[j + 1..j + 1 + |t|] == s[1..][j..j + |t|];
          assert OccursAt(s, t, j + 1);
        }
      }
      assert (exists i :: OccursAt(s, t, i)) ==> b by {
        if exists i :: OccursAt(s, t, i) {
          var i :| OccursAt(s, t, i);
          assert i != 0;
          assert s[1..][i - 1..i - 1 + |t|] == s[i..i + |t|];
          assert OccursAt(s[1..], t, i - 1);
        }
      }
      b
  }

  /** `s.replace(/\D/g, '')`: the decimal digits of `s`, in order. */
  function Digits(s: string): (r: string)
    ensures |r| <= |s|
    ensures AllDigits(r)
    ensures AllDigits(s) ==> r == s
  {
    if s == [] then []
    else if IsDigit(s[0]) then [s[0]] + Digits(s[1..])
    else Digits(s[1..])
  }

  /** Whitespace contributes no digits, so a blank string has none. */
  lemma {:induction false} BlankHasNoDigits(s: string)
    requires AllSpace(s)
    ensures Digits(s) == []
  {
    if s != [] {
      assert !IsDigit(s[0]);
      BlankHasNoDigits(s[1..]);
    }
  }

  /** `parts.join(sep)` */
  function Join(parts: seq<string>, sep: string): string
  {
    if |parts| == 0 then ""
    else if |parts| == 1 then parts[0]
    else parts[0] + sep + Join(parts[1..], sep)
  }

  /** `s.replace(/\s+/g, '_')`: every maximal whitespace run becomes one underscore. */
  function CollapseSpaces(s: string): (r: string)
    ensures NoSpace(r)
    ensures |r| <= |s|
    ensures NoSpace(s) ==> r == s
    decreases |s|
  {
    if s == [] then []
    else if IsSpace(s[0]) then
      "_" + CollapseSpaces(TrimStart(s))
    else
      [s[0]] + CollapseSpaces(s[1..])
  }

  /** A whitespace run followed by a non-space (or nothing) trims to what follows it. */
  lemma {:induction false} TrimStartRun(run: string, rest: string)
    requires AllSpace(run)
    requires rest == [] || !IsSpace(rest[0])
    ensures TrimStart(run + rest) == rest
  {
    if run == [] {
      assert run + rest == rest;
    } else {
      assert (run + rest)[0] == run[0] && (run + rest)[1..] == run[1..] + rest;
      TrimStartRun(run[1..], rest);
    }
  }

  /** A non-space character is copied through. */
  lemma CollapseCons(c: char, t: string)
    requires !IsSpace(c)
    ensures CollapseSpaces([c] + t) == [c] + CollapseSpaces(t)
  {
    assert ([c] + t)[0] == c && ([c] + t)[1..] == t;
  }

  /** A whole run at the front becomes one underscore. */
  lemma SpaceRun(run: string, rest: string)
    requires run != [] && AllSpace(run)
    requires rest == [] || !IsSpace(rest[0])
    ensures CollapseSpaces(run + rest) == "_" + CollapseSpaces(rest)
  {
    assert (run + rest)[0] == run[0];
    TrimStartRun(run, rest);
  }

  /** A prefix without whitespace is copied through unchanged. */
  lemma {:induction false} CollapseWord(word: string, t: string)
    requires NoSpace(word)
    ensures CollapseSpaces(word + t) == word + CollapseSpaces(t)
  {
    if word == [] {
      assert word + t == t;
    } else {
      var c, w := word[0], word[1..];
      assert NoSpace(w) by { assert forall i :: 0 <= i < |w| ==> w[i] == word[i + 1]; }
      Seqs.HeadTail(word);
      Seqs.ConcatAssoc([c], w, t);
      CollapseCons(c, w + t);
      CollapseWord(w, t);
      Seqs.ConcatAssoc([c], w, CollapseSpaces(t));
    }
  }

  /**
   * One underscore replaces each maximal whitespace run: a word, then a whole run,
   * then text that does not start with whitespace.
   */
  lemma CollapseRun(word: string, run: string, rest: string)
    requires NoSpace(word) && run != [] && AllSpace(run)
    requires rest == [] || !IsSpace(rest[0])
    ensures CollapseSpaces(word + run + rest) == word + "_" + CollapseSpaces(rest)
  {
    Seqs.ConcatAssoc(word, run, rest);
    CollapseWord(word, run + rest);
    SpaceRun(run, rest);
    Seqs.ConcatAssoc(word, "_", CollapseSpaces(rest));
  }

  /** `s.split(c)[0]`: the part of `s` before the first `c`, or all of `s`. */
  function Before(s: string, c: char): (r: string)
    ensures |r| <= |s| && r == s[..|r|]
    ensures c !in r
    ensures |r| < |s| ==> s[|r|] == c
  {
    if s == [] || s[0] == c then [] else [s[0]] + Before(s[1..], c)
  }

  function DigitChar(d: nat): (c: char)
    requires d < 10
    ensures IsDigit(c)
  {
    ('0' as int + d) as char
  }

  /** Decimal rendering of a natural number, as JavaScript's `String(n)` prints it. */
  function NatToString(n: nat): (r: string)
    ensures r != [] && AllDigits(r)
    ensures r[0] == '0' ==> n == 0
  {
    if n < 10 then [DigitChar(n)] else NatToString(n / 10) + [DigitChar(n % 10)]
  }

  /** `String(n)` for an integer. */
  function IntToString(n: int): string
  {
    if n < 0 then "-" + NatToString(-n) else NatToString(n)
  }

  /** A digit in the given radix (10 or 16), as `parseInt` accepts it. */
  predicate IsRadixDigit(c: char, radix: nat) {
    IsDigit(c) || (radix == 16 && ('a' <= c <= 'f' || 'A' <= c <= 'F'))
  }

  function DigitValue(c: char): (v: nat)
    ensures IsDigit(c) ==> v < 10
  {
    if IsDigit(c) then c as int - '0' as int
    else if 'a' <= c <= 'f' then c as int - 'a' as int + 10
    else if 'A' <= c <= 'F' then c as int - 'A' as int + 10
    else 0
  }

  /** The longest prefix of `s` made of digits of the radix. */
  function LeadingDigits(s: string, radix: nat): (r: string)
    ensures |r| <= |s| && r == s[..|r|]
    ensures forall i :: 0 <= i < |r| ==> IsRadixDigit(r[i], radix)
    ensures |r| < |s| ==> !IsRadixDigit(s[|r|], radix)
  {
    if s == [] || !IsRadixDigit(s[0], radix) then [] else [s[0]] + LeadingDigits(s[1..], radix)
  }

  /** The number a digit string denotes in the radix, most significant digit first. */
  function DigitsValue(ds: string, radix: nat): nat
  {
    if ds == [] then 0 else DigitsValue(ds[..|ds| - 1], radix) * radix + DigitValue(ds[|ds| - 1])
  }

  /**
   * `parseInt(s)` with no radix argument: leading whitespace, an optional sign, an
   * optional `0x`/`0X` prefix selecting radix 16, then the longest run of digits.
   * None stands for NaN (no digit at all).
   */
  function ParseInt(s: string): Option<int>
  {
    var t := TrimStart(s);
    if t != [] && t[0] == '-' then
      var v :- ParseUnsigned(t[1..]);
      Some(-v)
    else if t != [] && t[0] == '+' then
      ParseUnsigned(t[1..])
    else
      ParseUnsigned(t)
  }

  /** The unsigned part of `parseInt`: an optional `0x`/`0X` prefix, then the longest run of digits. */
  function ParseUnsigned(u: string): Option<int>
  {
    var hex := |u| >= 2 && u[0] == '0' && (u[1] == 'x' || u[1] == 'X');
    var radix := if hex then 16 else 10;
    var ds := LeadingDigits(if hex then u[2..] else u, radix);
    if ds == [] then None else Some(DigitsValue(ds, radix))
  }

  lemma {:induction false} NatToStringValue(n: nat)
    ensures DigitsValue(NatToString(n), 10) == n
  {
    var r := NatToString(n);
    if n >= 10 {
      NatToStringValue(n / 10);
      assert r[..|r| - 1] == NatToString(n / 10);
    }
  }

  /** A decimal rendering is all digits, so `parseInt` reads the whole of it. */
  lemma DecimalIsLeadingDigits(d: string)
    requires AllDigits(d)
    ensures LeadingDigits(d, 10) == d
  {
    var l := LeadingDigits(d, 10);
    if |l| < |d| {
      assert IsRadixDigit(d[|l|], 10);
    }
  }

  /** The unsigned part of `parseInt` reads a decimal rendering as the number it denotes. */
  lemma ParseDecimal(d: string)
    requires d != [] && AllDigits(d)
    ensures ParseUnsigned(d) == Some(DigitsValue(d, 10) as int)
  {
    assert !(|d| >= 2 && (d[1] == 'x' || d[1] == 'X')) by {
      if |d| >= 2 { assert IsDigit(d[1]); }
    }
    DecimalIsLeadingDigits(d);
  }

  /** `parseInt` reads an unsigned decimal rendering as the number it denotes. */
  lemma ParseNonNegative(d: string)
    requires d != [] && AllDigits(d)
    ensures ParseInt(d) == Some(DigitsValue(d, 10) as int)
  {
    assert !IsSpace(d[0]);
    assert TrimStart(d) == d;
    ParseDecimal(d);
  }

  /** `parseInt` reads a minus sign before a decimal rendering as the negated number. */
  lemma ParseNegative(d: string)
    requires d != [] && AllDigits(d)
    ensures ParseInt("-" + d) == Some(-(DigitsValue(d, 10) as int))
  {
    var s := "-" + d;
    assert s[0] == '-' && s[1..] == d;
    assert TrimStart(s) == s;
    ParseDecimal(d);
  }

  /** Printing an integer and parsing it back with `parseInt` gives the integer again. */
  lemma ParseIntRoundTrip(n: int)
    ensures ParseInt(IntToString(n)) == Some(n)
  {
    var m: nat := if n < 0 then -n else n;
    NatToStringValue(m);
    if n < 0 {
      ParseNegative(NatToString(m));
    } else {
      ParseNonNegative(NatToString(m));
    }
  }
}
