/**
 * The JavaScript string built-ins the views rely on, written out over `seq<char>`:
 * ASCII `toLowerCase`, `includes`, `startsWith`, `split` on one character,
 * `replace` of the first occurrence of one character, decimal `parseInt`,
 * `Number.prototype.toString` on integers, `padStart(2, '0')` and the
 * lexicographic order that `<`, `>=` and (as modelled here) `localeCompare` use.
 */
module JsString {
  import opened Wrappers

  predicate IsDigit(c: char) { '0' <= c <= '9' }

  predicate AllDigits(s: string) { forall i :: 0 <= i < |s| ==> IsDigit(s[i]) }

  function LowerChar(c: char): char {
    if 'A' <= c <= 'Z' then (c as int + 32) as char else c
  }

  /** `s.toLowerCase()` on ASCII letters; every other character is kept. */
  function Lower(s: string): (r: string)
    ensures |r| == |s|
    ensures forall i :: 0 <= i < |s| ==> r[i] == LowerChar(s[i])
  {
    if s == [] then [] else [LowerChar(s[0])] + Lower(s[1..])
  }

  lemma LowerConcat(a: string, b: string)
    ensures Lower(a + b) == Lower(a) + Lower(b)
  {
    assert forall i :: 0 <= i < |a + b| ==> Lower(a + b)[i] == (Lower(a) + Lower(b))[i];
  }

  /** `s.startsWith(p)`. */
  predicate StartsWith(s: string, p: string) {
    |p| <= |s| && s[..|p|] == p
  }

  /** `s.includes(sub)`: `sub` occurs in `s` at some offset. */
  predicate Includes(s: string, sub: string)
    decreases |s|
  {
    StartsWith(s, sub) || (|s| > 0 && Includes(s[1..], sub))
  }

  lemma {:induction false} IncludesAt(s: string, sub: string, k: nat)
    requires k + |sub| <= |s| && s[k..k + |sub|] == sub
    ensures Includes(s, sub)
    decreases k
  {
    if k > 0 {
      assert s[1..][k - 1..k - 1 + |sub|] == s[k..k + |sub|];
      IncludesAt(s[1..], sub, k - 1);
    }
  }

  lemma {:induction false} IncludesWitness(s: string, sub: string) returns (k: nat)
    requires Includes(s, sub)
    ensures k + |sub| <= |s| && s[k..k + |sub|] == sub
    decreases |s|
  {
    if StartsWith(s, sub) {
      k := 0;
    } else {
      var j := IncludesWitness(s[1..], sub);
      assert s[1..][j..j + |sub|] == s[j + 1..j + 1 + |sub|];
      k := j + 1;
    }
  }

  /** A string cannot contain a piece whose first character it lacks. */
  lemma {:induction false} NotIncludesFirstChar(s: string, sub: string)
    requires sub != [] && sub[0] !in s
    ensures !Includes(s, sub)
    decreases |s|
  {
    if |s| > 0 {
      assert sub[0] !in s[1..];
      NotIncludesFirstChar(s[1..], sub);
    }
  }

  /** The empty string contains only the empty string. */
  lemma EmptyIncludesOnlyEmpty(sub: string)
    ensures Includes("", sub) <==> sub == ""
  {
  }

  /**
   * `s.split(sep)` for a one-character separator: the pieces between the
   * separators, always at least one (`"".split(sep)` is `[""]`).
   */
  function Split(s: string, sep: char): (parts: seq<string>)
    ensures |parts| >= 1
    ensures forall i :: 0 <= i < |parts| ==> sep !in parts[i]
    decreases |s|
  {
    if s == [] then [""]
    else
      var rest := Split(s[1..], sep);
      if s[0] == sep then [""] + rest
      else [[s[0]] + rest[0]] + rest[1..]
  }

  /** `parts.join(sep)`. */
  function Join(parts: seq<string>, sep: char): string
    requires |parts| >= 1
    decreases |parts|
  {
    if |parts| == 1 then parts[0] else parts[0] + [sep] + Join(parts[1..], sep)
  }

  /** Splitting loses nothing: joining the pieces back gives the original string. */
  lemma {:induction false} SplitJoin(s: string, sep: char)
    ensures Join(Split(s, sep), sep) == s
    decreases |s|
  {
    if s != [] {
      SplitJoin(s[1..], sep);
      var rest := Split(s[1..], sep);
      if s[0] == sep {
        assert Split(s, sep)[1..] == rest;
      } else if |rest| == 1 {
        assert s == [s[0]] + s[1..];
      } else {
        var parts := Split(s, sep);
        assert parts[1..] == rest[1..];
        assert Join(rest, sep) == rest[0] + [sep] + Join(rest[1..], sep);
        assert s == [s[0]] + s[1..];
      }
    }
  }

  /** A string without the separator is a single piece. */
  lemma {:induction false} SplitNoSep(s: string, sep: char)
    requires sep !in s
    ensures Split(s, sep) == [s]
    decreases |s|
  {
    if s != [] {
      assert sep !in s[1..];
      SplitNoSep(s[1..], sep);
      assert s == [s[0]] + s[1..];
    }
  }

  /** A separator after a separator-free head splits off that head. */
  lemma {:induction false} SplitAtSep(a: string, b: string, sep: char)
    requires sep !in a
    ensures Split(a + [sep] + b, sep) == [a] + Split(b, sep)
    decreases |a|
  {
    if a == [] {
      assert a + [sep] + b == [sep] + b;
      assert ([sep] + b)[1..] == b;
    } else {
      var s := a + [sep] + b;
      assert s[0] == a[0];
      assert s[1..] == a[1..] + [sep] + b;
      assert sep !in a[1..];
      SplitAtSep(a[1..], b, sep);
      assert [a[0]] + a[1..] == a;
    }
  }

  /** `s.replace(c, '')` with a one-character pattern: only the first occurrence goes. */
  function RemoveFirst(s: string, c: char): (r: string)
    decreases |s|
  {
    if s == [] then [] else if s[0] == c then s[1..] else [s[0]] + RemoveFirst(s[1..], c)
  }

  /** `s.indexOf(c)`: the position of the first `c`, or -1. */
  function IndexOf(s: string, c: char): (k: int)
    ensures -1 <= k < |s|
    ensures k >= 0 ==> s[k] == c && c !in s[..k]
    ensures k < 0 ==> c !in s
    decreases |s|
  {
    if s == [] then -1
    else if s[0] == c then 0
    else
      var j := IndexOf(s[1..], c);
      assert j >= 0 ==> s[..j + 1] == [s[0]] + s[1..][..j];
      if j < 0 then -1 else j + 1
  }

  /** Removing the first `c` cuts out exactly the position `indexOf` finds. */
  lemma {:induction false} RemoveFirstSpec(s: string, c: char)
    ensures var k := IndexOf(s, c);
            RemoveFirst(s, c) == if k < 0 then s else s[..k] + s[k + 1..]
    decreases |s|
  {
    if s != [] && s[0] != c {
      RemoveFirstSpec(s[1..], c);
      var j := IndexOf(s[1..], c);
      if j >= 0 {
        assert s[..j + 1] == [s[0]] + s[1..][..j];
        assert s[j + 2..] == s[1..][j + 1..];
      } else {
        assert s == [s[0]] + s[1..];
      }
    }
  }

  // ----- numbers -----

  function DigitValue(c: char): nat
    requires IsDigit(c)
  {
    c as int - '0' as int
  }

  function DigitChar(d: nat): (c: char)
    requires d < 10
    ensures IsDigit(c) && DigitValue(c) == d
  {
    ('0' as int + d) as char
  }

  /** The number a string of decimal digits denotes. */
  function DigitsValue(ds: string): nat
    requires AllDigits(ds)
    decreases |ds|
  {
    if ds == [] then 0 else 10 * DigitsValue(ds[..|ds| - 1]) + DigitValue(ds[|ds| - 1])
  }

  /** The longest prefix of `s` made of decimal digits. */
  function LeadingDigits(s: string): (d: string)
    ensures AllDigits(d) && StartsWith(s, d)
    ensures |d| < |s| ==> !IsDigit(s[|d|])
    decreases |s|
  {
    if s != [] && IsDigit(s[0]) then [s[0]] + LeadingDigits(s[1..]) else []
  }

  /**
   * `parseInt(s)` in base 10: an optional sign, then as many digits as there are;
   * `None` is `NaN` (no digit at all).
   */
  function ParseInt(s: string): Option<int> {
    var negative := |s| > 0 && s[0] == '-';
    var body := if |s| > 0 && (s[0] == '-' || s[0] == '+') then s[1..] else s;
    var ds := LeadingDigits(body);
    if ds == [] then None
    else
      var v: int := DigitsValue(ds);
      Some(if negative then -v else v)
  }

  /** `String(n)` for a natural number: its decimal digits, no leading zero. */
  function NatToString(n: nat): (s: string)
    ensures AllDigits(s) && |s| >= 1
    decreases n
  {
    if n < 10 then [DigitChar(n)] else NatToString(n / 10) + [DigitChar(n % 10)]
  }

  /** `String(n)` / `n.toString()` for an integer. */
  function IntToString(n: int): string {
    if n < 0 then "-" + NatToString(-n) else NatToString(n)
  }

  lemma {:induction false} NatToStringValue(n: nat)
    ensures DigitsValue(NatToString(n)) == n
    decreases n
  {
    if n >= 10 {
      NatToStringValue(n / 10);
      var s := NatToString(n);
      assert s[..|s| - 1] == NatToString(n / 10);
    }
  }

  lemma LeadingDigitsOfDigits(s: string)
    requires AllDigits(s)
    ensures LeadingDigits(s) == s
  {
    if s != [] {
      LeadingDigitsOfDigits(s[1..]);
    }
  }

  /** A digit string parses to its decimal value. */
  lemma ParseDigits(s: string)
    requires s != [] && AllDigits(s)
    ensures ParseInt(s) == Some(DigitsValue(s))
  {
    LeadingDigitsOfDigits(s);
    assert IsDigit(s[0]);
  }

  /** A lone digit parses to its value. */
  lemma ParseOneDigit(s: string)
    requires |s| == 1 && IsDigit(s[0])
    ensures ParseInt(s) == Some(DigitValue(s[0]))
  {
    ParseDigits(s);
    assert s[..0] == [];
  }

  /** Two digits parse to their decimal value. */
  lemma ParseTwoDigits(s: string)
    requires |s| == 2 && AllDigits(s)
    ensures ParseInt(s) == Some(10 * DigitValue(s[0]) + DigitValue(s[1]))
  {
    ParseDigits(s);
    assert s[..1][..0] == [] && s[..1][0] == s[0];
    assert DigitsValue(s) == 10 * DigitsValue(s[..1]) + DigitValue(s[1]);
  }

  /** Four digits parse to their decimal value. */
  lemma ParseFourDigits(s: string)
    requires |s| == 4 && AllDigits(s)
    ensures ParseInt(s) == Some(1000 * DigitValue(s[0]) + 100 * DigitValue(s[1]) + 10 * DigitValue(s[2]) + DigitValue(s[3]))
  {
    ParseDigits(s);
    var s3, s2, s1 := s[..3], s[..2], s[..1];
    assert s3[..2] == s2 && s2[..1] == s1 && s1[..0] == [];
    assert DigitsValue(s) == 10 * DigitsValue(s3) + DigitValue(s[3]);
    assert DigitsValue(s3) == 10 * DigitsValue(s2) + DigitValue(s[2]);
    assert DigitsValue(s2) == 10 * DigitsValue(s1) + DigitValue(s[1]);
    assert DigitsValue(s1) == DigitValue(s[0]);
  }

  /** `parseInt(String(n)) === n`: printing an integer and parsing it back is the identity. */
  lemma ParseIntToString(n: int)
    ensures ParseInt(IntToString(n)) == Some(n)
  {
    var m := if n < 0 then -n else n;
    NatToStringValue(m);
    LeadingDigitsOfDigits(NatToString(m));
    if n < 0 {
      assert IntToString(n)[1..] == NatToString(m);
    } else {
      assert NatToString(m)[0] != '-' && NatToString(m)[0] != '+';
    }
  }

  /** Leading zeros do not change the value of a digit string. */
  lemma {:induction false} DigitsValueLeadingZero(ds: string)
    requires AllDigits(ds)
    ensures DigitsValue("0" + ds) == DigitsValue(ds)
    decreases |ds|
  {
    if ds != [] {
      var z := "0" + ds;
      assert z[..|z| - 1] == "0" + ds[..|ds| - 1];
      DigitsValueLeadingZero(ds[..|ds| - 1]);
    } else {
      assert "0" + ds == "0";
      assert "0"[..0] == [];
    }
  }

  /** `s.padStart(2, '0')`. */
  function PadStart2(s: string): (r: string)
    ensures |r| == if |s| < 2 then 2 else |s|
    ensures r[|r| - |s|..] == s
    ensures forall i :: 0 <= i < |r| - |s| ==> r[i] == '0'
  {
    if |s| == 0 then "00" else if |s| == 1 then "0" + s else s
  }

  // ----- lexicographic order -----

  /**
   * `a < b` on strings, in lexicographic order of characters. A Dafny `char` is a
   * Unicode scalar value, so this is code-point order, which equals JavaScript's
   * UTF-16 code-unit order on text within the Basic Multilingual Plane, such as
   * the `YYYY-MM-DD` dates.
   */
  predicate LexLess(a: string, b: string)
    decreases |a|
  {
    if a == [] then b != []
    else if b == [] then false
    else if a[0] != b[0] then a[0] < b[0]
    else LexLess(a[1..], b[1..])
  }

  /** `a.localeCompare(b)`, modelled as the lexicographic three-way comparison. */
  function LexCompare(a: string, b: string): (r: int)
    ensures r < 0 <==> LexLess(a, b)
    ensures r == 0 <==> a == b
  {
    LexTrichotomy(a, b);
    if LexLess(a, b) then -1 else if a == b then 0 else 1
  }

  lemma {:induction false} LexIrreflexive(a: string)
    ensures !LexLess(a, a)
    decreases |a|
  {
    if a != [] {
      LexIrreflexive(a[1..]);
    }
  }

  lemma {:induction false} LexTrichotomy(a: string, b: string)
    ensures LexLess(a, b) || a == b || LexLess(b, a)
    ensures !(LexLess(a, b) && LexLess(b, a))
    ensures LexLess(a, b) ==> a != b
    decreases |a|
  {
    if a == [] || b == [] {
    } else if a[0] == b[0] {
      LexTrichotomy(a[1..], b[1..]);
      if a[1..] == b[1..] {
        assert a == [a[0]] + a[1..] && b == [b[0]] + b[1..];
      }
    }
  }

  lemma {:induction false} LexTransitive(a: string, b: string, c: string)
    requires LexLess(a, b) && LexLess(b, c)
    ensures LexLess(a, c)
    decreases |a|
  {
    if a != [] && b != [] && c != [] && a[0] == b[0] && b[0] == c[0] {
      LexTransitive(a[1..], b[1..], c[1..]);
    }
  }

  /** Comparing concatenations whose first parts have one length compares the first parts, then the rest. */
  lemma {:induction false} LexConcat(a1: string, a2: string, b1: string, b2: string)
    requires |a1| == |b1|
    ensures LexLess(a1 + a2, b1 + b2) <==> LexLess(a1, b1) || (a1 == b1 && LexLess(a2, b2))
    decreases |a1|
  {
    if a1 == [] {
      assert a1 + a2 == a2 && b1 + b2 == b2;
    } else {
      assert (a1 + a2)[0] == a1[0] && (a1 + a2)[1..] == a1[1..] + a2;
      assert (b1 + b2)[0] == b1[0] && (b1 + b2)[1..] == b1[1..] + b2;
      LexConcat(a1[1..], a2, b1[1..], b2);
      if a1[0] == b1[0] {
        assert a1 == b1 <==> a1[1..] == b1[1..] by {
          assert a1 == [a1[0]] + a1[1..] && b1 == [b1[0]] + b1[1..];
        }
      }
    }
  }

  /** On digit strings of one length, lexicographic order is numeric order. */
  lemma {:induction false} DigitsLexOrder(a: string, b: string)
    requires |a| == |b| && AllDigits(a) && AllDigits(b)
    ensures LexLess(a, b) <==> DigitsValue(a) < DigitsValue(b)
    ensures a == b <==> DigitsValue(a) == DigitsValue(b)
    decreases |a|
  {
    if a != [] {
      var n := |a|;
      var a1, b1 := a[..n - 1], b[..n - 1];
      assert a == a1 + [a[n - 1]] && b == b1 + [b[n - 1]];
      assert AllDigits(a1) && AllDigits(b1);
      DigitsLexOrder(a1, b1);
      LexConcat(a1, [a[n - 1]], b1, [b[n - 1]]);
      LastCharLex(a[n - 1], b[n - 1]);
      SplitLast(a, b);
      DigitStep(DigitsValue(a1), DigitsValue(b1), DigitValue(a[n - 1]), DigitValue(b[n - 1]));
    }
  }

  /** One-character texts compare as their characters. */
  lemma LastCharLex(x: char, y: char)
    requires IsDigit(x) && IsDigit(y)
    ensures LexLess([x], [y]) <==> DigitValue(x) < DigitValue(y)
    ensures x == y <==> DigitValue(x) == DigitValue(y)
  {
    assert [x][1..] == [] && [y][1..] == [];
  }

  /** Two non-empty texts of one length are equal iff their fronts and last characters are. */
  lemma SplitLast(a: string, b: string)
    requires |a| == |b| > 0
    ensures a == b <==> a[..|a| - 1] == b[..|b| - 1] && a[|a| - 1] == b[|b| - 1]
  {
    if a[..|a| - 1] == b[..|b| - 1] && a[|a| - 1] == b[|b| - 1] {
      assert a == a[..|a| - 1] + [a[|a| - 1]] && b == b[..|b| - 1] + [b[|b| - 1]];
    }
  }

  /** Appending a decimal digit keeps the order of the numbers, the last digit breaking ties. */
  lemma DigitStep(p: nat, q: nat, x: nat, y: nat)
    requires x < 10 && y < 10
    ensures 10 * p + x < 10 * q + y <==> p < q || (p == q && x < y)
    ensures 10 * p + x == 10 * q + y <==> p == q && x == y
  {
  }

  /** The number of decimal digits of a number below 10000. */
  lemma NatToStringLength(n: nat)
    ensures n < 10 ==> |NatToString(n)| == 1
    ensures 10 <= n < 100 ==> |NatToString(n)| == 2
    ensures 1000 <= n < 10000 ==> |NatToString(n)| == 4
  {
    if n >= 10 {
      var a := n / 10;
      NatToStringStep(n);
      if a >= 10 {
        var b := a / 10;
        NatToStringStep(a);
        if b >= 10 {
          NatToStringStep(b);
        }
      }
    }
  }

  /** Printing a number of two or more digits prints its tenth, then one more digit. */
  lemma NatToStringStep(n: nat)
    requires n >= 10
    ensures |NatToString(n)| == |NatToString(n / 10)| + 1
  {
  }
}
