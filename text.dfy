/**
 * String helpers shared by the filters, the navigator factory and the
 * orchestrators: ASCII case folding, literal substring search, Python's
 * `re.sub(r'^\d+-', '', s)`, `str.capitalize()` and the code-point order
 * Python uses to compare and sort strings.
 */
module Text {

  predicate IsDigit(c: char) { '0' <= c <= '9' }
  predicate IsUpper(c: char) { 'A' <= c <= 'Z' }
  predicate IsLower(c: char) { 'a' <= c <= 'z' }

  function ToLower(c: char): (r: char)
    ensures IsUpper(c) ==> IsLower(r) && r as int == c as int + 32
    ensures !IsUpper(c) ==> r == c
  {
    if IsUpper(c) then (c as int + 32) as char else c
  }

  function ToUpper(c: char): (r: char)
    ensures IsLower(c) ==> IsUpper(r) && r as int == c as int - 32
    ensures !IsLower(c) ==> r == c
  {
    if IsLower(c) then (c as int - 32) as char else c
  }

  /** `str.lower()` over the ASCII letters. */
  function Lower(s: string): (r: string)
    ensures |r| == |s|
    ensures forall i :: 0 <= i < |s| ==> r[i] == ToLower(s[i])
  {
    seq(|s|, i requires 0 <= i < |s| => ToLower(s[i]))
  }

  /** Literal substring test (`sub in s`). */
  predicate Contains(s: string, sub: string)
  {
    exists i :: 0 <= i <= |s| && sub <= s[i..]
  }

  /** `Series.str.contains(sub, case=False)` on a non-null cell, with `sub` taken literally. */
  predicate ContainsIgnoreCase(s: string, sub: string)
  {
    Contains(Lower(s), Lower(sub))
  }

  predicate AllDigits(s: string)
  {
    forall i :: 0 <= i < |s| ==> IsDigit(s[i])
  }

  /** Length of the leading run of ASCII digits. */
  function LeadingDigits(s: string): (n: nat)
    ensures n <= |s|
    ensures AllDigits(s[..n])
    ensures n < |s| ==> !IsDigit(s[n])
  {
    if |s| > 0 && IsDigit(s[0]) then
      var k := LeadingDigits(s[1..]);
      assert s[1..][..k] == s[1..k + 1];
      1 + k
    else 0
  }

  /**
   * `re.sub(r'^\d+-', '', s)`: removes one leading run of digits followed
   * by a dash; any other string is returned as it is.
   */
  function StripNumericPrefix(s: string): (r: string)
    ensures |r| <= |s|
  {
    var n := LeadingDigits(s);
    if 0 < n < |s| && s[n] == '-' then s[n + 1..] else s
  }

  /** What is removed, when anything is, is a non-empty run of digits and one dash; what is left is a suffix. */
  lemma StripNumericPrefixShape(s: string)
    ensures var r := StripNumericPrefix(s);
      (r == s || exists k :: 0 < k < |s| && AllDigits(s[..k]) && s[k] == '-' && r == s[k + 1..])
      && r == s[|s| - |r|..]
  {
    var n := LeadingDigits(s);
    if 0 < n < |s| && s[n] == '-' {
      assert AllDigits(s[..n]);
    }
  }

  /** The other direction: every digits-dash prefix is removed, and only that prefix. */
  lemma {:induction false} StripNumericPrefixRemoves(digits: string, rest: string)
    requires |digits| > 0 && AllDigits(digits)
    ensures StripNumericPrefix(digits + "-" + rest) == rest
  {
    var s := digits + "-" + rest;
    LeadingDigitsOf(digits, "-" + rest);
    assert s == digits + ("-" + rest);
    assert s[|digits|] == '-';
    assert s[|digits| + 1..] == rest;
  }

  lemma {:induction false} LeadingDigitsOf(digits: string, tail: string)
    requires AllDigits(digits)
    requires |tail| > 0 && !IsDigit(tail[0])
    ensures LeadingDigits(digits + tail) == |digits|
  {
    if |digits| > 0 {
      assert (digits + tail)[1..] == digits[1..] + tail;
      LeadingDigitsOf(digits[1..], tail);
    } else {
      assert digits + tail == tail;
    }
  }

  /** A string that does not start with a digit is left untouched. */
  lemma NoDigitPrefixUnchanged(s: string)
    requires |s| == 0 || !IsDigit(s[0])
    ensures StripNumericPrefix(s) == s
  {
  }

  /** `s.replace('-', ' ')`. */
  function ReplaceDashes(s: string): (r: string)
    ensures |r| == |s|
    ensures forall i :: 0 <= i < |s| ==> r[i] == (if s[i] == '-' then ' ' else s[i])
  {
    seq(|s|, i requires 0 <= i < |s| => if s[i] == '-' then ' ' else s[i])
  }

  /** `str.capitalize()` over the ASCII letters: first character upper-case, the rest lower-case. */
  function Capitalize(s: string): (r: string)
    ensures |r| == |s|
    ensures |s| > 0 ==> r[0] == ToUpper(s[0])
    ensures forall i :: 0 < i < |s| ==> r[i] == ToLower(s[i])
  {
    if s == [] then [] else [ToUpper(s[0])] + Lower(s[1..])
  }

  /** Python's `<` on `str`: lexicographic order of code points. */
  predicate StrLt(a: string, b: string)
    decreases |a|
  {
    if |a| == 0 then |b| > 0
    else |b| > 0 && (a[0] < b[0] || (a[0] == b[0] && StrLt(a[1..], b[1..])))
  }

  predicate StrLe(a: string, b: string)
  {
    a == b || StrLt(a, b)
  }

  lemma {:induction false} StrLtIrreflexive(a: string)
    ensures !StrLt(a, a)
  {
    if |a| > 0 {
      StrLtIrreflexive(a[1..]);
    }
  }

  lemma {:induction false} StrLtTransitive(a: string, b: string, c: string)
    requires StrLt(a, b) && StrLt(b, c)
    ensures StrLt(a, c)
  {
    if |a| > 0 && a[0] == b[0] && b[0] == c[0] {
      StrLtTransitive(a[1..], b[1..], c[1..]);
    }
  }

  lemma {:induction false} StrLtTotal(a: string, b: string)
    ensures a == b || StrLt(a, b) || StrLt(b, a)
  {
    if |a| > 0 && |b| > 0 && a[0] == b[0] {
      StrLtTotal(a[1..], b[1..]);
      if a[1..] == b[1..] {
        assert a == [a[0]] + a[1..] && b == [b[0]] + b[1..];
      }
    }
  }

  lemma StrLtAsymmetric(a: string, b: string)
    requires StrLt(a, b)
    ensures !StrLt(b, a)
  {
    if StrLt(b, a) {
      StrLtTransitive(a, b, a);
      StrLtIrreflexive(a);
    }
  }

  lemma StrLeTransitive(a: string, b: string, c: string)
    requires StrLe(a, b) && StrLe(b, c)
    ensures StrLe(a, c)
  {
    if StrLt(a, b) && StrLt(b, c) {
      StrLtTransitive(a, b, c);
    }
  }

  /** `StrLe` is total: when `a <= b` fails, `b < a`. */
  lemma StrLeTotal(a: string, b: string)
    ensures StrLe(a, b) || StrLt(b, a)
  {
    StrLtTotal(a, b);
  }
}
