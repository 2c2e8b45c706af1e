/**
 * The handful of JavaScript string operations the core relies on, written out
 * over `seq<char>`: decimal rendering of numbers, `padStart`, ASCII
 * `toLowerCase`, `Array.prototype.join`, a global one-character `replace`, and
 * `startsWith`.
 */
module Strings {

  predicate IsDigit(c: char)
  {
    '0' <= c <= '9'
  }

  predicate AllDigits(s: string)
  {
    forall i :: 0 <= i < |s| ==> IsDigit(s[i])
  }

  function DigitChar(d: nat): (c: char)
    requires d < 10
    ensures IsDigit(c) && c as int - '0' as int == d
  {
    ('0' as int + d) as char
  }

  /** `n.toString()` for a non-negative integer: its shortest decimal form. */
  function NatToString(n: nat): (s: string)
    ensures |s| >= 1 && AllDigits(s)
    ensures n >= 10 ==> s[0] != '0'
    decreases n
  {
    if n < 10 then [DigitChar(n)] else NatToString(n / 10) + [DigitChar(n % 10)]
  }

  /** `i.toString()` for any integer. */
  function IntToString(i: int): string
  {
    if i < 0 then "-" + NatToString(-i) else NatToString(i)
  }

  /** The number a string of decimal digits denotes (leading zeros allowed). */
  function DigitsValue(s: string): nat
    requires AllDigits(s)
  {
    if |s| == 0 then 0
    else DigitsValue(s[..|s| - 1]) * 10 + (s[|s| - 1] as int - '0' as int)
  }

  /** Reading back what `NatToString` wrote gives the number again. */
  lemma {:induction false} NatToStringValue(n: nat)
    ensures DigitsValue(NatToString(n)) == n
    decreases n
  {
    if n >= 10 {
      NatToStringValue(n / 10);
      var s := NatToString(n);
      assert s[..|s| - 1] == NatToString(n / 10);
    }
  }

  /** `s.padStart(width, c)`: `s` preceded by enough copies of `c` to reach `width`. */
  function PadStart(s: string, width: nat, c: char): string
  {
    if |s| >= width then s else seq(width - |s|, _ => c) + s
  }

  /** Leading zeros do not change the value of a digit string. */
  lemma {:induction false} LeadingZerosValue(z: nat, s: string)
    requires AllDigits(s)
    ensures AllDigits(seq(z, _ => '0') + s)
    ensures DigitsValue(seq(z, _ => '0') + s) == DigitsValue(s)
    decreases |s|
  {
    var zs := seq(z, _ => '0');
    assert AllDigits(zs + s) by {
      forall i | 0 <= i < |zs + s| ensures IsDigit((zs + s)[i]) {
        if i < z { assert (zs + s)[i] == '0'; } else { assert (zs + s)[i] == s[i - z]; }
      }
    }
    if |s| == 0 {
      assert zs + s == zs;
      ZerosValue(z);
    } else {
      LeadingZerosValue(z, s[..|s| - 1]);
      assert (zs + s)[..|zs + s| - 1] == zs + s[..|s| - 1];
    }
  }

  lemma {:induction false} ZerosValue(z: nat)
    ensures AllDigits(seq(z, _ => '0'))
    ensures DigitsValue(seq(z, _ => '0')) == 0
  {
    if z > 0 {
      ZerosValue(z - 1);
      assert seq(z, _ => '0')[..z - 1] == seq(z - 1, _ => '0');
    }
  }

  /** `String.prototype.toLowerCase`, restricted to ASCII letters. */
  function LowerChar(c: char): char
  {
    if 'A' <= c <= 'Z' then (c as int + 32) as char else c
  }

  function Lower(s: string): string
  {
    seq(|s|, i requires 0 <= i < |s| => LowerChar(s[i]))
  }

  /** `parts.join(sep)`. */
  function Join(parts: seq<string>, sep: string): string
  {
    if |parts| == 0 then ""
    else if |parts| == 1 then parts[0]
    else Join(parts[..|parts| - 1], sep) + sep + parts[|parts| - 1]
  }

  /** `s.replace(/from/g, to)` for a single character. */
  function ReplaceChar(s: string, from: char, to: char): (r: string)
    ensures |r| == |s|
    ensures forall i :: 0 <= i < |s| ==> r[i] == (if s[i] == from then to else s[i])
  {
    seq(|s|, i requires 0 <= i < |s| => if s[i] == from then to else s[i])
  }

  /** `s.startsWith(prefix)`. */
  predicate StartsWith(s: string, prefix: string)
  {
    |prefix| <= |s| && s[..|prefix|] == prefix
  }

  /** A string that starts with `a + b` starts with `a`. */
  lemma PrefixOfPrefix(s: string, a: string, b: string)
    ensures StartsWith(s, a + b) ==> StartsWith(s, a)
  {
    if StartsWith(s, a + b) {
      assert s[..|a|] == s[..|a + b|][..|a|] == (a + b)[..|a|] == a;
    }
  }

  /** `s.substring(k)` for `k >= 0`: the empty string once `k` is past the end. */
  function From(s: string, k: nat): string
  {
    if k <= |s| then s[k..] else ""
  }

  /** `s.split(sep)` for a one-character separator: always at least one piece. */
  function Split(s: string, sep: char): (r: seq<string>)
    ensures |r| >= 1
  {
    if |s| == 0 then [""]
    else
      var rest := Split(s[1..], sep);
      if s[0] == sep then [""] + rest else [[s[0]] + rest[0]] + rest[1..]
  }

  lemma SplitCons(c: char, s: string, sep: char)
    ensures Split([c] + s, sep) ==
              if c == sep then [""] + Split(s, sep) else [[c] + Split(s, sep)[0]] + Split(s, sep)[1..]
  {
    assert ([c] + s)[1..] == s;
  }

  lemma SplitAroundStep(c: char, t: string, sep: char, y: string)
    requires Split(t + [sep] + y, sep) == Split(t, sep) + Split(y, sep)
    ensures Split([c] + t + [sep] + y, sep) == Split([c] + t, sep) + Split(y, sep)
  {
    var z := t + [sep] + y;
    assert [c] + t + [sep] + y == [c] + z;
    SplitCons(c, z, sep);
    SplitCons(c, t, sep);
    if c == sep {
      SplitStepAtSeparator(Split(t, sep), Split(y, sep));
    } else {
      SplitStepInPiece(c, Split(t, sep), Split(y, sep));
    }
  }

  lemma SplitStepAtSeparator(a: seq<string>, b: seq<string>)
    ensures [""] + (a + b) == ([""] + a) + b
  {
  }

  lemma SplitStepInPiece(c: char, a: seq<string>, b: seq<string>)
    requires |a| >= 1
    ensures [[c] + (a + b)[0]] + (a + b)[1..] == ([[c] + a[0]] + a[1..]) + b
  {
    assert (a + b)[0] == a[0];
    ConsFirst([c] + a[0], a, b);
  }

  lemma ConsFirst(h: string, a: seq<string>, b: seq<string>)
    requires |a| >= 1
    ensures [h] + (a + b)[1..] == ([h] + a[1..]) + b
  {
    assert (a + b)[1..] == a[1..] + b;
  }

  lemma {:induction false} SplitAround(x: string, sep: char, y: string)
    ensures Split(x + [sep] + y, sep) == Split(x, sep) + Split(y, sep)
  {
    if |x| == 0 {
      assert x + [sep] + y == [sep] + y;
      SplitCons(sep, y, sep);
    } else {
      SplitAround(x[1..], sep, y);
      SplitAroundStep(x[0], x[1..], sep, y);
      assert [x[0]] + x[1..] == x;
    }
  }

  lemma {:induction false} SplitWithoutSeparator(s: string, sep: char)
    requires forall k :: 0 <= k < |s| ==> s[k] != sep
    ensures Split(s, sep) == [s]
  {
    if |s| > 0 {
      SplitWithoutSeparator(s[1..], sep);
      assert s == [s[0]] + s[1..];
    }
  }

  /** Splitting a join at the separator gives the parts back when no part holds it. */
  lemma {:induction false} SplitJoin(parts: seq<string>, sep: char)
    requires |parts| >= 1
    requires forall i, k :: 0 <= i < |parts| && 0 <= k < |parts[i]| ==> parts[i][k] != sep
    ensures Split(Join(parts, [sep]), sep) == parts
  {
    var n := |parts|;
    SplitWithoutSeparator(parts[n - 1], sep);
    if n > 1 {
      SplitJoin(parts[..n - 1], sep);
      SplitAround(Join(parts[..n - 1], [sep]), sep, parts[n - 1]);
      assert parts[..n - 1] + [parts[n - 1]] == parts;
    }
  }
}
