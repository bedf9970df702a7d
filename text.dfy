/**
 * The pieces of JavaScript's String behaviour the dashboard relies on:
 * `trim`, `toLowerCase`, `includes`, `split`, `Number(digits)` and the
 * decimal form of an integer.
 */
module Text {

  /** WhiteSpace and LineTerminator code points, which `String.prototype.trim` strips. */
  predicate IsJsSpace(c: char) {
    || c == '\t' || c == '\n' || c == '\U{000B}' || c == '\U{000C}' || c == '\r' || c == ' '
    || c == '\U{00A0}' || c == '\U{1680}' || ('\U{2000}' <= c <= '\U{200A}')
    || c == '\U{2028}' || c == '\U{2029}' || c == '\U{202F}' || c == '\U{205F}'
    || c == '\U{3000}' || c == '\U{FEFF}'
  }

  predicate AllSpace(s: string) {
    forall i :: 0 <= i < |s| ==> IsJsSpace(s[i])
  }

  /** A string `trim` leaves alone: empty, or neither end is white space. */
  predicate IsTrimmed(s: string) {
    |s| == 0 || (!IsJsSpace(s[0]) && !IsJsSpace(s[|s| - 1]))
  }

  /** How many white-space code points open `s`. */
  function LeadingSpace(s: string): (n: nat)
    ensures n <= |s|
  {
    if |s| > 0 && IsJsSpace(s[0]) then 1 + LeadingSpace(s[1..]) else 0
  }

  /** How many white-space code points close `s`. */
  function TrailingSpace(s: string): (n: nat)
    ensures n <= |s|
  {
    if |s| > 0 && IsJsSpace(s[|s| - 1]) then 1 + TrailingSpace(s[..|s| - 1]) else 0
  }

  /** The leading run is white space and the code point after it is not. */
  lemma {:induction false} LeadingSpaceRun(s: string)
    ensures AllSpace(s[..LeadingSpace(s)])
    ensures LeadingSpace(s) == |s| || !IsJsSpace(s[LeadingSpace(s)])
  {
    if |s| > 0 && IsJsSpace(s[0]) {
      var t := s[1..];
      LeadingSpaceRun(t);
      var n := LeadingSpace(t);
      assert LeadingSpace(s) == n + 1;
      assert s[..n + 1] == [s[0]] + t[..n];
      if n < |t| {
        assert s[n + 1] == t[n];
      }
    }
  }

  /** The trailing run is white space and the code point before it is not. */
  lemma {:induction false} TrailingSpaceRun(s: string)
    ensures AllSpace(s[|s| - TrailingSpace(s)..])
    ensures TrailingSpace(s) == |s| || !IsJsSpace(s[|s| - 1 - TrailingSpace(s)])
  {
    if |s| > 0 && IsJsSpace(s[|s| - 1]) {
      var p := s[..|s| - 1];
      TrailingSpaceRun(p);
      var n := TrailingSpace(p);
      assert TrailingSpace(s) == n + 1;
      assert s[|s| - (n + 1)..] == p[|p| - n..] + [s[|s| - 1]];
      if n < |p| {
        assert s[|s| - 1 - (n + 1)] == p[|p| - 1 - n];
      }
    }
  }

  /** A text that opens with a non-space code point keeps it out of its trailing run. */
  lemma {:induction false} TrailingSpaceBelow(s: string)
    requires |s| > 0 && !IsJsSpace(s[0])
    ensures TrailingSpace(s) < |s|
  {
    if IsJsSpace(s[|s| - 1]) {
      var p := s[..|s| - 1];
      assert p[0] == s[0];
      TrailingSpaceBelow(p);
    }
  }

  /** The span `trim` keeps: between the leading run and the trailing run after it. */
  lemma TrimSpan(s: string, i: nat, j: int)
    requires i == LeadingSpace(s) && j == |s| - TrailingSpace(s[i..])
    ensures i <= j <= |s|
    ensures AllSpace(s[..i]) && AllSpace(s[j..]) && IsTrimmed(s[i..j])
  {
    var u := s[i..];
    var n := TrailingSpace(u);
    LeadingSpaceRun(s);
    TrailingSpaceRun(u);
    assert u[|u| - n..] == s[j..];
    if i < |s| {
      assert u[0] == s[i];
      TrailingSpaceBelow(u);
      assert s[i..j][|s[i..j]| - 1] == u[|u| - 1 - n];
    }
  }

  /** `String.prototype.trim`: white space removed from both ends. */
  function Trim(s: string): (t: string)
    ensures IsTrimmed(t)
    ensures exists i, j :: 0 <= i <= j <= |s| && t == s[i..j] && AllSpace(s[..i]) && AllSpace(s[j..])
  {
    var i := LeadingSpace(s);
    var j := |s| - TrailingSpace(s[i..]);
    TrimSpan(s, i, j);
    s[i..j]
  }

  /** White space in front adds its length to the leading run. */
  lemma {:induction false} LeadingSpaceSkips(a: string, r: string)
    requires AllSpace(a)
    ensures LeadingSpace(a + r) == |a| + LeadingSpace(r)
  {
    if |a| > 0 {
      assert (a + r)[1..] == a[1..] + r;
      LeadingSpaceSkips(a[1..], r);
    } else {
      assert a + r == r;
    }
  }

  /** White space behind adds its length to the trailing run. */
  lemma {:induction false} TrailingSpaceSkips(r: string, b: string)
    requires AllSpace(b)
    ensures TrailingSpace(r + b) == TrailingSpace(r) + |b|
  {
    if |b| > 0 {
      assert (r + b)[..|r + b| - 1] == r + b[..|b| - 1];
      TrailingSpaceSkips(r, b[..|b| - 1]);
    } else {
      assert r + b == r;
    }
  }

  /**
   * The trimmed text is the unique core: surrounding white space of any
   * length is removed and a trimmed core is kept whole.
   */
  lemma TrimCore(a: string, m: string, b: string)
    requires AllSpace(a) && AllSpace(b) && IsTrimmed(m)
    ensures Trim(a + m + b) == m
  {
    var s := a + m + b;
    assert s == a + (m + b);
    LeadingSpaceSkips(a, m + b);
    if m == [] {
      assert m + b == b && b == b + [];
      LeadingSpaceSkips(b, []);
      assert s[|s|..] == [];
    } else {
      assert LeadingSpace(m + b) == 0;
      assert s[|a|..] == m + b;
      TrailingSpaceSkips(m, b);
      assert s[|a|..|a| + |m|] == m;
    }
  }

  /** A trimmed text is its own trim. */
  lemma TrimOfTrimmed(s: string)
    requires IsTrimmed(s)
    ensures Trim(s) == s
  {
    TrimCore([], s, []);
    assert [] + s + [] == s;
  }

  /** Trimming twice is trimming once. */
  lemma TrimIdempotent(s: string)
    ensures Trim(Trim(s)) == Trim(s)
  {
    TrimOfTrimmed(Trim(s));
  }

  /**
   * `toLowerCase` on one code point, for ASCII and Latin-1 capitals only;
   * every other character is left unchanged here.
   */
  function LowerChar(c: char): char {
    if 'A' <= c <= 'Z' then (c as int + 32) as char
    else if '\U{00C0}' <= c <= '\U{00DE}' && c != '\U{00D7}' then (c as int + 32) as char
    else c
  }

  /**
   * `String.prototype.toLowerCase` restricted to ASCII and Latin-1, where
   * it maps each code point to one code point.
   */
  function Lower(s: string): (t: string)
    ensures |t| == |s|
    ensures forall i :: 0 <= i < |s| ==> t[i] == LowerChar(s[i])
  {
    seq(|s|, i requires 0 <= i < |s| => LowerChar(s[i]))
  }

  /** `sub` occurs in `s` starting at index `i`. */
  predicate OccursAt(s: string, sub: string, i: int) {
    0 <= i && i + |sub| <= |s| && s[i..i + |sub|] == sub
  }

  /** `s.includes(sub)`. */
  predicate Contains(s: string, sub: string) {
    exists i :: 0 <= i <= |s| - |sub| && OccursAt(s, sub, i)
  }

  /** A text that contains a longer text contains every prefix of it. */
  lemma ContainsPrefix(s: string, sub: string, k: nat)
    requires Contains(s, sub) && k <= |sub|
    ensures Contains(s, sub[..k])
  {
    var i :| 0 <= i <= |s| - |sub| && OccursAt(s, sub, i);
    assert s[i..i + k] == sub[..k];
    assert OccursAt(s, sub[..k], i);
  }

  /** A text drawn from a set of characters contains no text holding a character outside it. */
  lemma NotContainsForeign(s: string, sub: string, j: nat, allowed: char -> bool)
    requires forall i :: 0 <= i < |s| ==> allowed(s[i])
    requires j < |sub| && !allowed(sub[j])
    ensures !Contains(s, sub)
  {
    forall i | 0 <= i <= |s| - |sub|
      ensures !OccursAt(s, sub, i)
    {
      assert s[i..i + |sub|][j] == s[i + j];
    }
  }

  predicate IsDigit(c: char) {
    '0' <= c <= '9'
  }

  predicate AllDigits(s: string) {
    forall i :: 0 <= i < |s| ==> IsDigit(s[i])
  }

  function DigitChar(d: nat): char
    requires d < 10
  {
    ('0' as int + d) as char
  }

  /** `Number(s)` for a text made only of decimal digits. */
  function DigitsValue(s: string): (n: nat)
    requires AllDigits(s)
  {
    if |s| == 0 then 0
    else 10 * DigitsValue(s[..|s| - 1]) + (s[|s| - 1] as int - '0' as int)
  }

  /** Appending a digit multiplies the value by ten and adds the digit. */
  lemma DigitsValueSnoc(s: string, c: char)
    requires AllDigits(s) && IsDigit(c)
    ensures AllDigits(s + [c])
    ensures DigitsValue(s + [c]) == 10 * DigitsValue(s) + (c as int - '0' as int)
  {
    assert (s + [c])[..|s|] == s;
  }

  function NatDecimal(n: nat): (s: string)
    ensures |s| > 0 && AllDigits(s)
  {
    if n < 10 then [DigitChar(n)] else NatDecimal(n / 10) + [DigitChar(n % 10)]
  }

  /** Reading back the decimal form of a natural number gives the number. */
  lemma {:induction false} NatDecimalValue(n: nat)
    ensures DigitsValue(NatDecimal(n)) == n
  {
    if n >= 10 {
      NatDecimalValue(n / 10);
      var s := NatDecimal(n);
      assert s[..|s| - 1] == NatDecimal(n / 10);
    }
  }

  /** The decimal form of an integer, as `String(n)` writes it. */
  function Decimal(n: int): string {
    if n < 0 then "-" + NatDecimal(-n) else NatDecimal(n)
  }

  /** `s.split(sep)` for a one-character separator. */
  function Split(s: string, sep: char): (parts: seq<string>)
    ensures |parts| >= 1
    ensures forall k :: 0 <= k < |parts| ==> sep !in parts[k]
  {
    if |s| == 0 then [""]
    else if s[0] == sep then [""] + Split(s[1..], sep)
    else
      var rest := Split(s[1..], sep);
      [[s[0]] + rest[0]] + rest[1..]
  }

  /** `parts.join(sep)`. */
  function Join(parts: seq<string>, sep: char): string
    requires |parts| >= 1
  {
    if |parts| == 1 then parts[0] else parts[0] + [sep] + Join(parts[1..], sep)
  }

  /** Splitting and joining back with the same separator gives the original text. */
  lemma {:induction false} JoinSplit(s: string, sep: char)
    ensures Join(Split(s, sep), sep) == s
  {
    if |s| > 0 {
      JoinSplit(s[1..], sep);
      var rest := Split(s[1..], sep);
      if s[0] == sep {
        assert ([""] + rest)[1..] == rest;
      } else {
        var parts := [[s[0]] + rest[0]] + rest[1..];
        if |rest| == 1 {
          assert parts == [[s[0]] + rest[0]];
        } else {
          assert parts[1..] == rest[1..];
          assert Join(rest, sep) == rest[0] + [sep] + Join(rest[1..], sep);
        }
        assert s == [s[0]] + s[1..];
      }
    }
  }

  /** A text without the separator is a single part. */
  lemma {:induction false} SplitWhole(a: string, sep: char)
    requires sep !in a
    ensures Split(a, sep) == [a]
  {
    if |a| > 0 {
      assert sep !in a[1..];
      SplitWhole(a[1..], sep);
      assert a == [a[0]] + a[1..];
    }
  }

  /** The first separator ends the first part; the rest is split on its own. */
  lemma {:induction false} SplitFirst(a: string, sep: char, b: string)
    requires sep !in a
    ensures Split(a + [sep] + b, sep) == [a] + Split(b, sep)
  {
    var s := a + [sep] + b;
    if |a| == 0 {
      assert s[1..] == b;
    } else {
      assert s[1..] == a[1..] + [sep] + b;
      assert sep !in a[1..];
      SplitFirst(a[1..], sep, b);
      assert a == [a[0]] + a[1..];
    }
  }
}
