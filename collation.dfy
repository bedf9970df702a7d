/**
 * `String.prototype.localeCompare(other, "pt-BR", {numeric: true,
 * sensitivity: "base"})`, as a collation key compared element by element.
 * A run of decimal digits is one element compared by its numeric value
 * (so "Cliente 2" precedes "Cliente 10"); other characters are compared
 * after lower-casing and removing Latin-1 accents (so "A", "a" and "á"
 * are equal). Characters below '0' (space, most punctuation) precede
 * digits, which precede the rest.
 */
module Collation {
  import opened Text

  /** One collation element. */
  datatype Elem = Digits(value: nat) | Letter(c: char)

  /** The base letter of a lower-case Latin-1 letter: accents removed. */
  function BaseLetter(c: char): char {
    if '\U{00E0}' <= c <= '\U{00E5}' then 'a'
    else if c == '\U{00E7}' then 'c'
    else if '\U{00E8}' <= c <= '\U{00EB}' then 'e'
    else if '\U{00EC}' <= c <= '\U{00EF}' then 'i'
    else if c == '\U{00F1}' then 'n'
    else if ('\U{00F2}' <= c <= '\U{00F6}') || c == '\U{00F8}' then 'o'
    else if '\U{00F9}' <= c <= '\U{00FC}' then 'u'
    else if c == '\U{00FD}' || c == '\U{00FF}' then 'y'
    else c
  }

  /** The length of the run of digits `s` starts with. */
  function DigitRun(s: string): (k: nat)
    requires |s| > 0 && IsDigit(s[0])
    ensures 1 <= k <= |s|
    ensures AllDigits(s[..k])
    ensures k == |s| || !IsDigit(s[k])
  {
    if |s| == 1 || !IsDigit(s[1]) then 1
    else
      var k := 1 + DigitRun(s[1..]);
      assert forall i :: 1 <= i < k ==> s[..k][i] == s[1..][..k - 1][i - 1];
      k
  }

  /** The collation key of a text. */
  function Collate(s: string): seq<Elem>
    decreases |s|
  {
    if s == [] then []
    else if IsDigit(s[0]) then
      var k := DigitRun(s);
      [Digits(DigitsValue(s[..k]))] + Collate(s[k..])
    else [Letter(BaseLetter(LowerChar(s[0])))] + Collate(s[1..])
  }

  function Sign(n: int): (r: int)
    ensures r == -1 || r == 0 || r == 1
    ensures r < 0 <==> n < 0
    ensures r > 0 <==> n > 0
  {
    if n < 0 then -1 else if n > 0 then 1 else 0
  }

  /** The class of an element: characters below '0', then numbers, then the rest. */
  function Class(e: Elem): int {
    match e
    case Digits(_) => 1
    case Letter(c) => if c < '0' then 0 else 2
  }

  function Weight(e: Elem): int {
    match e
    case Digits(n) => n
    case Letter(c) => c as int
  }

  function ElemCmp(a: Elem, b: Elem): (r: int)
    ensures r == -1 || r == 0 || r == 1
  {
    if Class(a) != Class(b) then Sign(Class(a) - Class(b)) else Sign(Weight(a) - Weight(b))
  }

  /** Lexicographic comparison of collation keys; a proper prefix comes first. */
  function LexCmp(a: seq<Elem>, b: seq<Elem>): (r: int)
    ensures r == -1 || r == 0 || r == 1
  {
    if a == [] && b == [] then 0
    else if a == [] then -1
    else if b == [] then 1
    else
      var c := ElemCmp(a[0], b[0]);
      if c != 0 then c else LexCmp(a[1..], b[1..])
  }

  /** `x.localeCompare(y, "pt-BR", {numeric: true, sensitivity: "base"})`. */
  function LocaleCompare(x: string, y: string): (r: int)
    ensures r == -1 || r == 0 || r == 1
  {
    LexCmp(Collate(x), Collate(y))
  }

  lemma {:induction false} LexCmpAntisymmetric(a: seq<Elem>, b: seq<Elem>)
    ensures LexCmp(b, a) == -LexCmp(a, b)
  {
    if a != [] && b != [] && ElemCmp(a[0], b[0]) == 0 {
      LexCmpAntisymmetric(a[1..], b[1..]);
    }
  }

  lemma {:induction false} LexCmpTransitive(a: seq<Elem>, b: seq<Elem>, c: seq<Elem>)
    requires LexCmp(a, b) <= 0 && LexCmp(b, c) <= 0
    ensures LexCmp(a, c) <= 0
  {
    if a != [] && b != [] && c != [] {
      if ElemCmp(a[0], b[0]) == 0 && ElemCmp(b[0], c[0]) == 0 {
        LexCmpTransitive(a[1..], b[1..], c[1..]);
      }
    }
  }

  /** Swapping the operands of `localeCompare` negates the result. */
  lemma LocaleCompareAntisymmetric(x: string, y: string)
    ensures LocaleCompare(y, x) == -LocaleCompare(x, y)
  {
    LexCmpAntisymmetric(Collate(x), Collate(y));
  }

  /** `localeCompare` orders texts transitively. */
  lemma LocaleCompareTransitive(x: string, y: string, z: string)
    requires LocaleCompare(x, y) <= 0 && LocaleCompare(y, z) <= 0
    ensures LocaleCompare(x, z) <= 0
  {
    LexCmpTransitive(Collate(x), Collate(y), Collate(z));
  }

  /** A text without digits collates character by character, so a prefix of it collates apart. */
  lemma {:induction false} CollateAppend(t: string, s: string)
    requires forall i :: 0 <= i < |t| ==> !IsDigit(t[i])
    ensures Collate(t + s) == Collate(t) + Collate(s)
  {
    if t != [] {
      assert (t + s)[1..] == t[1..] + s;
      CollateAppend(t[1..], s);
    } else {
      assert t + s == s;
    }
  }

  lemma {:induction false} LexCmpCommonPrefix(p: seq<Elem>, a: seq<Elem>, b: seq<Elem>)
    ensures LexCmp(p + a, p + b) == LexCmp(a, b)
  {
    if p != [] {
      assert (p + a)[1..] == p[1..] + a;
      assert (p + b)[1..] == p[1..] + b;
      LexCmpCommonPrefix(p[1..], a, b);
    } else {
      assert p + a == a && p + b == b;
    }
  }

  lemma CollateTwo()
    ensures Collate("2") == [Digits(2)]
  {
    assert "2"[..1] == "2";
  }

  lemma CollateTen()
    ensures Collate("10") == [Digits(10)]
  {
    assert "10"[..2] == "10" && "10"[..1] == "1";
    assert DigitsValue("10") == 10;
  }

  /** Numbers inside texts compare by value: "Cliente 2" precedes "Cliente 10". */
  lemma NumericCollation()
    ensures LocaleCompare("Cliente 2", "Cliente 10") < 0
  {
    var p := "Cliente ";
    assert "Cliente 2" == p + "2" && "Cliente 10" == p + "10";
    CollateAppend(p, "2");
    CollateAppend(p, "10");
    CollateTwo();
    CollateTen();
    LexCmpCommonPrefix(Collate(p), [Digits(2)], [Digits(10)]);
  }

  /** Case and accents are ignored: "Ávila" and "avila" compare equal. */
  lemma BaseSensitivity()
    ensures LocaleCompare("\U{00C1}vila", "avila") == 0
  {
    var t := "vila";
    assert "\U{00C1}vila" == ['\U{00C1}'] + t && "avila" == ['a'] + t;
    CollateAppend(['\U{00C1}'], t);
    CollateAppend(['a'], t);
    LexCmpCommonPrefix([Letter('a')], Collate(t), Collate(t));
    LexCmpAntisymmetric(Collate(t), Collate(t));
  }
}
