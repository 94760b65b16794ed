/**
 * The string operations of Python that the bot relies on, over `seq<char>`
 * (a Dafny `char` is a Unicode scalar value, as a Python `str` element is a code point):
 * `str.isspace`/`str.strip`, `str.isdigit`, `int(...)` of a digit string, `str(n)`,
 * `str.lower` (ASCII letters only), `str.startswith` and the substring test `k in t`.
 */
module Text {
  import opened Wrappers

  /** Python's `str.isspace` for one character: the characters `str.strip()` removes. */
  predicate IsSpace(c: char) {
    var n := c as int;
    c == ' ' || (9 <= n <= 13) || (28 <= n <= 31) || n == 0x85 || n == 0xA0 || n == 0x1680
    || (0x2000 <= n <= 0x200A) || n == 0x2028 || n == 0x2029 || n == 0x202F || n == 0x205F
    || n == 0x3000
  }

  /** `s.lstrip()`: drops leading whitespace. */
  function TrimLeft(s: string): (r: string)
    ensures |r| <= |s| && r == s[|s| - |r|..]
    ensures r == [] || !IsSpace(r[0])
    ensures forall i :: 0 <= i < |s| - |r| ==> IsSpace(s[i])
  {
    if |s| > 0 && IsSpace(s[0]) then TrimLeft(s[1..]) else s
  }

  /** `s.rstrip()`: drops trailing whitespace. */
  function TrimRight(s: string): (r: string)
    ensures |r| <= |s| && r == s[..|r|]
    ensures r == [] || !IsSpace(r[|r| - 1])
    ensures forall i :: |r| <= i < |s| ==> IsSpace(s[i])
  {
    if |s| > 0 && IsSpace(s[|s| - 1]) then TrimRight(s[..|s| - 1]) else s
  }

  /** `s.strip()`. */
  function Strip(s: string): string {
    TrimRight(TrimLeft(s))
  }

  /** What `strip` keeps is a slice of the input with no whitespace at either end,
      and it is empty exactly when the input is all whitespace. */
  lemma StripIsTrimmedSlice(s: string)
    ensures exists i, j :: 0 <= i <= j <= |s| && Strip(s) == s[i..j]
    ensures Strip(s) == [] || (!IsSpace(Strip(s)[0]) && !IsSpace(Strip(s)[|Strip(s)| - 1]))
    ensures Strip(s) == [] <==> forall i :: 0 <= i < |s| ==> IsSpace(s[i])
  {
    StripIsSlice(s);
    StripEnds(s);
    StripEmptyIffBlank(s);
  }

  lemma StripIsSlice(s: string)
    ensures exists i, j :: 0 <= i <= j <= |s| && Strip(s) == s[i..j]
  {
    var l := TrimLeft(s);
    var r := TrimRight(l);
    var i := |s| - |l|;
    SliceOfSuffix(s, i, |r|);
    assert Strip(s) == s[i..i + |r|];
  }

  /** Taking `n` elements of the suffix from `i` is the slice from `i` to `i + n`. */
  lemma SliceOfSuffix<T>(s: seq<T>, i: nat, n: nat)
    requires i + n <= |s|
    ensures s[i..][..n] == s[i..i + n]
  {
  }

  lemma StripEnds(s: string)
    ensures Strip(s) == [] || (!IsSpace(Strip(s)[0]) && !IsSpace(Strip(s)[|Strip(s)| - 1]))
  {
    var l := TrimLeft(s);
    var r := TrimRight(l);
    if r != [] {
      assert r[0] == l[0];
    }
  }

  lemma StripEmptyIffBlank(s: string)
    ensures Strip(s) == [] <==> forall i :: 0 <= i < |s| ==> IsSpace(s[i])
  {
    var l := TrimLeft(s);
    var r := TrimRight(l);
    var i := |s| - |l|;
    if r == [] {
      assert l == [];
    } else {
      assert r[0] == l[0] && l[0] == s[i];
    }
  }

  /** Python's `str.isdigit` for one character, restricted to the ASCII digits. */
  predicate IsDigit(c: char) {
    '0' <= c <= '9'
  }

  /** `s.isdigit()`: non-empty and made only of digits. */
  predicate IsDigits(s: string) {
    |s| > 0 && forall i :: 0 <= i < |s| ==> IsDigit(s[i])
  }

  function DigitValue(c: char): nat
    requires IsDigit(c)
  {
    (c as int) - ('0' as int)
  }

  function DigitChar(d: nat): (c: char)
    requires d < 10
    ensures IsDigit(c) && DigitValue(c) == d
  {
    ((d + '0' as int) as char)
  }

  /** `int(s)` for a string of ASCII digits (leading zeros allowed, as in Python). */
  function DigitsValue(s: string): nat
    requires forall i :: 0 <= i < |s| ==> IsDigit(s[i])
  {
    if s == [] then 0 else DigitsValue(s[..|s| - 1]) * 10 + DigitValue(s[|s| - 1])
  }

  /** `str(n)` for a natural number: decimal digits, no leading zero. */
  function NatToString(n: nat): (s: string)
    ensures IsDigits(s)
    ensures |s| > 1 ==> s[0] != '0'
    decreases n
  {
    if n < 10 then [DigitChar(n)] else NatToString(n / 10) + [DigitChar(n % 10)]
  }

  /** `str(i)` for any integer. */
  function IntToString(i: int): string {
    if i < 0 then "-" + NatToString(-i) else NatToString(i)
  }

  /** Reading back the decimal rendering of a number gives the number: `int(str(n)) == n`. */
  lemma {:induction false} DigitsValueOfNatToString(n: nat)
    ensures DigitsValue(NatToString(n)) == n
    decreases n
  {
    var s := NatToString(n);
    if n >= 10 {
      DigitsValueOfNatToString(n / 10);
      assert s[..|s| - 1] == NatToString(n / 10);
    }
  }

  /** Decimal rendering is injective: distinct numbers never print alike. */
  lemma NatToStringInjective(m: nat, n: nat)
    requires NatToString(m) == NatToString(n)
    ensures m == n
  {
    DigitsValueOfNatToString(m);
    DigitsValueOfNatToString(n);
  }

  /** Python's `str.lower`, for the ASCII letters. */
  function LowerChar(c: char): char {
    if 'A' <= c <= 'Z' then ((c as int) + 32) as char else c
  }

  function Lower(s: string): (r: string)
    ensures |r| == |s|
    ensures forall i :: 0 <= i < |s| ==> r[i] == LowerChar(s[i])
  {
    seq(|s|, i requires 0 <= i < |s| => LowerChar(s[i]))
  }

  /** `t.startswith(k)`. */
  predicate StartsWith(t: string, k: string) {
    k <= t
  }

  /** The substring test `k in t`. */
  predicate Contains(t: string, k: string)
    decreases |t|
  {
    StartsWith(t, k) || (|t| > 0 && Contains(t[1..], k))
  }

  /** `k` occurs in `t` starting at position `i`. */
  predicate OccursAt(t: string, k: string, i: nat) {
    i + |k| <= |t| && t[i..i + |k|] == k
  }

  /** `k in t` holds exactly when `k` occurs at some position of `t`. */
  lemma {:induction false} ContainsAt(t: string, k: string)
    ensures Contains(t, k) <==> exists i: nat :: OccursAt(t, k, i)
    decreases |t|
  {
    if exists i: nat :: OccursAt(t, k, i) {
      var i: nat :| OccursAt(t, k, i);
      if i > 0 {
        assert OccursAt(t[1..], k, i - 1);
        ContainsAt(t[1..], k);
      } else {
        assert StartsWith(t, k);
      }
    }
    if StartsWith(t, k) {
      assert OccursAt(t, k, 0);
    } else if Contains(t, k) {
      ContainsAt(t[1..], k);
      var i: nat :| OccursAt(t[1..], k, i);
      assert t[i + 1..i + 1 + |k|] == t[1..][i..i + |k|];
      assert OccursAt(t, k, i + 1);
    }
  }

  /** A string is found inside any text that is built around it. */
  lemma {:induction false} ContainsMiddle(a: string, k: string, b: string)
    ensures Contains(a + k + b, k)
    decreases |a|
  {
    if a == [] {
      assert a + k + b == k + b;
    } else {
      ContainsMiddle(a[1..], k, b);
      assert (a + k + b)[1..] == a[1..] + k + b;
    }
  }

  /** A text that ends with `k` contains it. */
  lemma ContainsEnd(a: string, k: string)
    ensures Contains(a + k, k)
  {
    assert a + k == a + k + [];
    ContainsMiddle(a, k, []);
  }

  /** Appending to a text keeps what it contains. */
  lemma {:induction false} ContainsAppend(t: string, k: string, x: string)
    requires Contains(t, k)
    ensures Contains(t + x, k)
    decreases |t|
  {
    if !StartsWith(t, k) {
      ContainsAppend(t[1..], k, x);
      assert (t + x)[1..] == t[1..] + x;
    }
  }

  /** A text in which the first character of `k` never appears does not contain `k`. */
  lemma {:induction false} AbsentFirstChar(t: string, k: string)
    requires |k| > 0 && forall i :: 0 <= i < |t| ==> t[i] != k[0]
    ensures !Contains(t, k)
    decreases |t|
  {
    if |t| > 0 {
      assert t[0] != k[0];
      assert !StartsWith(t, k);
      assert forall i :: 0 <= i < |t[1..]| ==> t[1..][i] == t[i + 1];
      AbsentFirstChar(t[1..], k);
    } else {
      assert !StartsWith(t, k);
    }
  }

  /** A text with no whitespace at either end is its own `strip()`. */
  lemma StripUnpadded(s: string)
    requires s != [] && !IsSpace(s[0]) && !IsSpace(s[|s| - 1])
    ensures Strip(s) == s
  {
  }

  /** The body of a decimal literal as `int()` accepts it: digits, with single underscores
      allowed between two digits. */
  predicate IsGroupedDigits(t: string) {
    |t| > 0 && IsDigit(t[0]) && IsDigit(t[|t| - 1])
    && (forall i :: 0 <= i < |t| ==> IsDigit(t[i]) || t[i] == '_')
    && (forall i :: 0 <= i < |t| - 1 ==> t[i] == '_' ==> t[i + 1] != '_')
  }

  /** The digits of a grouped literal, underscores removed. */
  function DropUnderscores(t: string): (r: string)
    requires forall i :: 0 <= i < |t| ==> IsDigit(t[i]) || t[i] == '_'
    ensures forall i :: 0 <= i < |r| ==> IsDigit(r[i])
    ensures (forall i :: 0 <= i < |t| ==> IsDigit(t[i])) ==> r == t
  {
    if t == [] then []
    else (if t[0] == '_' then [] else [t[0]]) + DropUnderscores(t[1..])
  }

  function GroupedValue(t: string): nat
    requires IsGroupedDigits(t)
  {
    DigitsValue(DropUnderscores(t))
  }

  /** Python's `int(s)` on a string, in base 10: surrounding whitespace is ignored, one sign
      may lead, and the rest must be a grouped run of digits; anything else raises
      `ValueError`, shown here as None. */
  function ParseInt(s: string): (r: Option<int>)
    ensures r.Some? ==> Strip(s) != []
  {
    var t := Strip(s);
    if |t| > 0 && (t[0] == '-' || t[0] == '+') then
      if IsGroupedDigits(t[1..]) then
        Some(if t[0] == '-' then -(GroupedValue(t[1..]) as int) else GroupedValue(t[1..]) as int)
      else None
    else if IsGroupedDigits(t) then Some(GroupedValue(t) as int)
    else None
  }

  /** A stripped run of ASCII digits is read as its decimal value. */
  lemma ParseIntOfDigits(s: string)
    requires IsDigits(Strip(s))
    ensures ParseInt(s) == Some(DigitsValue(Strip(s)) as int)
  {
  }

  /** A run of plain digits is a grouped literal with the same value. */
  lemma GroupedDigitsOfDigits(d: string)
    requires IsDigits(d)
    ensures IsGroupedDigits(d) && GroupedValue(d) == DigitsValue(d)
  {
  }

  /** `int(str(i)) == i` for every integer. */
  lemma {:induction false} ParseIntOfIntToString(i: int)
    ensures ParseInt(IntToString(i)) == Some(i)
  {
    var n: nat := if i < 0 then -i else i;
    var d := NatToString(n);
    DigitsValueOfNatToString(n);
    if i < 0 {
      ParseIntOfSignedDigits(d);
    } else {
      ParseIntOfPlainDigits(d);
    }
  }

  /** A bare run of digits reads as its value. */
  lemma ParseIntOfPlainDigits(d: string)
    requires IsDigits(d)
    ensures ParseInt(d) == Some(DigitsValue(d) as int)
  {
    StripUnpadded(d);
    ParseIntOfDigits(d);
  }

  /** A minus sign followed by a run of digits reads as the negated value. */
  lemma ParseIntOfSignedDigits(d: string)
    requires IsDigits(d)
    ensures ParseInt("-" + d) == Some(-(DigitsValue(d) as int))
  {
    var s := "-" + d;
    SignedDigitsUnpadded(d);
    assert s[1..] == d;
    GroupedDigitsOfDigits(d);
    ParseIntOfNegative(s);
  }

  /** A minus sign followed by digits has no whitespace to strip. */
  lemma SignedDigitsUnpadded(d: string)
    requires IsDigits(d)
    ensures Strip("-" + d) == "-" + d
  {
    var s := "-" + d;
    assert s[0] == '-' && s[|s| - 1] == d[|d| - 1];
    StripUnpadded(s);
  }

  /** A stripped text of a minus sign and a grouped literal reads as the negated value. */
  lemma ParseIntOfNegative(t: string)
    requires Strip(t) == t && |t| > 1 && t[0] == '-' && IsGroupedDigits(t[1..])
    ensures ParseInt(t) == Some(-(GroupedValue(t[1..]) as int))
  {
  }

  /** Python's `a <= b` on strings: code points compared in order, a prefix first. */
  predicate StrLe(a: string, b: string)
    decreases |a|
  {
    a == [] || (b != [] && (a[0] < b[0] || (a[0] == b[0] && StrLe(a[1..], b[1..]))))
  }

  /** The ordering read off its usual definition: `a` is a prefix of `b`, or the two agree up
      to a first position where `a` has the smaller code point. */
  lemma {:induction false} StrLeIsLexicographic(a: string, b: string)
    ensures StrLe(a, b) <==> a <= b || exists k: nat :: FirstDifferenceBelow(a, b, k)
    decreases |a|
  {
    if a != [] && b != [] {
      StrLeIsLexicographic(a[1..], b[1..]);
      if a[0] < b[0] {
        assert FirstDifferenceBelow(a, b, 0);
      } else if a[0] == b[0] {
        if exists k: nat :: FirstDifferenceBelow(a[1..], b[1..], k) {
          var k: nat :| FirstDifferenceBelow(a[1..], b[1..], k);
          assert a[..k + 1] == [a[0]] + a[1..][..k];
          assert b[..k + 1] == [b[0]] + b[1..][..k];
          assert FirstDifferenceBelow(a, b, k + 1);
        }
        if exists k: nat :: FirstDifferenceBelow(a, b, k) {
          var k: nat :| FirstDifferenceBelow(a, b, k);
          assert k > 0;
          assert a[1..][..k - 1] == a[1..k];
          assert FirstDifferenceBelow(a[1..], b[1..], k - 1);
        }
        if a <= b {
          assert a[1..] <= b[1..];
        }
        if a[1..] <= b[1..] {
          assert a == [a[0]] + a[1..];
          assert b == [b[0]] + b[1..][..|a| - 1] + b[|a|..];
        }
      } else {
        forall k: nat | FirstDifferenceBelow(a, b, k) ensures false {
        }
      }
    } else if a != [] {
      forall k: nat ensures !FirstDifferenceBelow(a, b, k) {
      }
    }
  }

  /** `a` and `b` agree before position `k`, where `a`'s code point is the smaller. */
  predicate FirstDifferenceBelow(a: string, b: string, k: nat) {
    k < |a| && k < |b| && a[..k] == b[..k] && a[k] < b[k]
  }

  lemma {:induction false} StrLeTotal(a: string, b: string)
    ensures StrLe(a, b) || StrLe(b, a)
    decreases |a|
  {
    if a != [] && b != [] && a[0] == b[0] {
      StrLeTotal(a[1..], b[1..]);
    }
  }

  lemma {:induction false} StrLeTransitive(a: string, b: string, c: string)
    requires StrLe(a, b) && StrLe(b, c)
    ensures StrLe(a, c)
    decreases |a|
  {
    if a != [] && a[0] == b[0] && b[0] == c[0] {
      StrLeTransitive(a[1..], b[1..], c[1..]);
    }
  }

  lemma {:induction false} StrLeAntisymmetric(a: string, b: string)
    requires StrLe(a, b) && StrLe(b, a)
    ensures a == b
    decreases |a|
  {
    if a != [] {
      StrLeAntisymmetric(a[1..], b[1..]);
      assert a == [a[0]] + a[1..] && b == [b[0]] + b[1..];
    }
  }

  /** Leading whitespace of `c + t` is that of `c`, and reaches into `t` only when `c` is
      all whitespace. */
  lemma {:induction false} TrimLeftAppend(c: string, t: string)
    ensures TrimLeft(c + t) == if TrimLeft(c) == [] then TrimLeft(t) else TrimLeft(c) + t
    decreases |c|
  {
    if c == [] {
      assert c + t == t;
    } else if IsSpace(c[0]) {
      assert (c + t)[0] == c[0];
      assert (c + t)[1..] == c[1..] + t;
      TrimLeftAppend(c[1..], t);
    } else {
      assert (c + t)[0] == c[0];
    }
  }

  /** `strip()` removes the "\n" a line is read with: the stripped line is the same with or
      without it. */
  lemma StripLineEnd(c: string)
    ensures Strip(c + "\n") == Strip(c)
  {
    var nl: string := "\n";
    assert IsSpace(nl[0]);
    assert TrimLeft(nl) == [] by {
      assert nl[1..] == [];
    }
    TrimLeftAppend(c, nl);
    var x := TrimLeft(c);
    if x == [] {
      assert TrimLeft(c + nl) == [];
    } else {
      var y := x + nl;
      assert TrimLeft(c + nl) == y;
      assert y[|y| - 1] == nl[0];
      assert y[..|y| - 1] == x;
      assert TrimRight(y) == TrimRight(x);
    }
  }

  /** Stripping a line read with its "\n" gives back an already stripped text. */
  lemma StripLineBreak(c: string)
    requires Strip(c) == c
    ensures Strip(c + "\n") == c
  {
    StripLineEnd(c);
  }

  /** Lowercasing twice is lowercasing once. */
  lemma LowerIdempotent(s: string)
    ensures Lower(Lower(s)) == Lower(s)
  {
    assert forall i :: 0 <= i < |s| ==> LowerChar(LowerChar(s[i])) == LowerChar(s[i]);
  }

  /** No ASCII capital letter survives lowercasing. */
  lemma LowerHasNoCapitals(s: string)
    ensures forall i :: 0 <= i < |Lower(s)| ==> !('A' <= Lower(s)[i] <= 'Z')
  {
  }

  /** Lowercasing works character by character, so it distributes over concatenation. */
  lemma LowerAppend(a: string, b: string)
    ensures Lower(a + b) == Lower(a) + Lower(b)
  {
    assert forall i :: 0 <= i < |a + b| ==> Lower(a + b)[i] == (Lower(a) + Lower(b))[i];
  }

}
