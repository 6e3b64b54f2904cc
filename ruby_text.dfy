/** The pieces of Ruby's core library that the section tool leans on:
    `String#<=>`, `String#to_i`, `Integer#to_s`, `Integer#<=>`, `Array#join`
    and `Array#inspect` on integer arrays, together with a line splitter that
    serves as the inverse of `join` when reading rendered output back. */
module RubyText {

  /** Ruby's `nil`-or-value. */
  datatype Option<T> = None | Some(value: T)

  // ---------------------------------------------------------------------------
  // Comparison
  // ---------------------------------------------------------------------------

  /** `Integer#<=>`. */
  function IntCmp(a: int, b: int): (r: int)
    ensures r < 0 <==> a < b
    ensures r == 0 <==> a == b
    ensures r > 0 <==> a > b
    ensures r == -1 || r == 0 || r == 1
  {
    if a < b then -1 else if a > b then 1 else 0
  }

  /** `String#<=>` on strings of one encoding: character by character, and a
      proper prefix sorts first. Characters are Unicode scalar values; their
      numeric order is the bytewise order of their UTF-8 encodings. */
  function StrCmp(a: string, b: string): (r: int)
    ensures r == -1 || r == 0 || r == 1
    ensures r == 0 <==> a == b
  {
    if |a| == 0 then (if |b| == 0 then 0 else -1)
    else if |b| == 0 then 1
    else if a[0] < b[0] then -1
    else if a[0] > b[0] then 1
    else
      assert a == [a[0]] + a[1..] && b == [b[0]] + b[1..];
      StrCmp(a[1..], b[1..])
  }

  /** Reference definition of lexicographic "less than". */
  predicate LexLess(a: string, b: string) {
    (|a| < |b| && a == b[..|a|]) ||
    (exists k :: 0 <= k < |a| && k < |b| && a[..k] == b[..k] && a[k] < b[k])
  }

  lemma {:induction false} StrCmpAntisymmetric(a: string, b: string)
    ensures StrCmp(b, a) == -StrCmp(a, b)
  {
    if |a| > 0 && |b| > 0 && a[0] == b[0] {
      StrCmpAntisymmetric(a[1..], b[1..]);
    }
  }

  lemma {:induction false} StrCmpTransitive(a: string, b: string, c: string)
    requires StrCmp(a, b) <= 0 && StrCmp(b, c) <= 0
    ensures StrCmp(a, c) <= 0
  {
    if |a| > 0 && |b| > 0 && |c| > 0 && a[0] == b[0] && b[0] == c[0] {
      StrCmpTransitive(a[1..], b[1..], c[1..]);
    }
  }

  /** `String#<=>` returns -1 exactly on the lexicographic "less than". */
  lemma {:induction false} StrCmpIsLexLess(a: string, b: string)
    ensures StrCmp(a, b) == -1 <==> LexLess(a, b)
  {
    if |a| == 0 {
      if |b| > 0 { assert a == b[..|a|]; }
    } else if |b| == 0 {
    } else if a[0] < b[0] {
      assert a[..0] == b[..0];
    } else if a[0] > b[0] {
      assert |a| <= |b| ==> a[0] != b[..|a|][0];
      assert forall k :: 0 < k <= |a| && k <= |b| ==> a[..k][0] != b[..k][0];
    } else {
      StrCmpIsLexLess(a[1..], b[1..]);
      LexLessTail(a, b);
    }
  }

  /** Behind a common first character, "less than" is decided by the rest. */
  lemma LexLessTail(a: string, b: string)
    requires |a| > 0 && |b| > 0 && a[0] == b[0]
    ensures LexLess(a, b) <==> LexLess(a[1..], b[1..])
  {
    if LexLess(a[1..], b[1..]) {
      LexLessPrepend(a, b);
    }
    if LexLess(a, b) {
      LexLessDrop(a, b);
    }
  }

  lemma LexLessPrepend(a: string, b: string)
    requires |a| > 0 && |b| > 0 && a[0] == b[0]
    requires LexLess(a[1..], b[1..])
    ensures LexLess(a, b)
  {
    var a', b' := a[1..], b[1..];
    if |a'| < |b'| && a' == b'[..|a'|] {
      assert a == [a[0]] + a' && b[..|a|] == [b[0]] + b'[..|a'|];
    } else {
      var k :| 0 <= k < |a'| && k < |b'| && a'[..k] == b'[..k] && a'[k] < b'[k];
      PrependFirstDifference(a, b, k);
    }
  }

  /** A first difference at `k` behind the first character is one at `k + 1`. */
  lemma PrependFirstDifference(a: string, b: string, k: nat)
    requires |a| > 0 && |b| > 0 && a[0] == b[0]
    requires k < |a| - 1 && k < |b| - 1 && a[1..][..k] == b[1..][..k] && a[k + 1] < b[k + 1]
    ensures LexLess(a, b)
  {
    assert a[..k + 1] == [a[0]] + a[1..][..k] && b[..k + 1] == [b[0]] + b[1..][..k];
  }

  lemma LexLessDrop(a: string, b: string)
    requires |a| > 0 && |b| > 0 && a[0] == b[0]
    requires LexLess(a, b)
    ensures LexLess(a[1..], b[1..])
  {
    var a', b' := a[1..], b[1..];
    if |a| < |b| && a == b[..|a|] {
      assert a' == b'[..|a'|];
    } else {
      var k :| 0 <= k < |a| && k < |b| && a[..k] == b[..k] && a[k] < b[k];
      assert k > 0;
      assert a'[..k - 1] == a[..k][1..] && b'[..k - 1] == b[..k][1..];
      assert a'[k - 1] == a[k] && b'[k - 1] == b[k];
    }
  }

  // ---------------------------------------------------------------------------
  // Decimal digits: String#to_i and Integer#to_s
  // ---------------------------------------------------------------------------

  predicate IsDigit(ch: char) {
    '0' <= ch <= '9'
  }

  predicate AllDigits(s: string) {
    forall i :: 0 <= i < |s| ==> IsDigit(s[i])
  }

  function DigitValue(ch: char): (d: nat)
    requires IsDigit(ch)
    ensures d < 10
  {
    ch as int - '0' as int
  }

  function DigitChar(d: nat): (ch: char)
    requires d < 10
    ensures IsDigit(ch) && DigitValue(ch) == d
  {
    ('0' as int + d) as char
  }

  /** The longest prefix of `s` made of decimal digits. */
  function LeadingDigits(s: string): (r: string)
    ensures r <= s
    ensures AllDigits(r)
    ensures |r| == |s| || !IsDigit(s[|r|])
  {
    if |s| == 0 || !IsDigit(s[0]) then "" else [s[0]] + LeadingDigits(s[1..])
  }

  /** The number a string of decimal digits denotes, most significant first. */
  function DigitsValue(ds: string): nat
    requires AllDigits(ds)
  {
    if |ds| == 0 then 0 else 10 * DigitsValue(ds[..|ds| - 1]) + DigitValue(ds[|ds| - 1])
  }

  /** `String#to_i` on strings whose number, if any, is a plain run of ASCII
      digits at the very start: the value of that run, 0 when there is none. */
  function ToI(s: string): nat {
    DigitsValue(LeadingDigits(s))
  }

  /** `Integer#to_s` for a natural number: shortest decimal notation. */
  function NatToString(n: nat): (r: string)
    ensures |r| >= 1 && AllDigits(r)
    ensures |r| == 1 || r[0] != '0'
    ensures DigitsValue(r) == n
  {
    if n < 10 then [DigitChar(n)]
    else
      var r := NatToString(n / 10) + [DigitChar(n % 10)];
      assert r[..|r| - 1] == NatToString(n / 10);
      r
  }

  lemma {:induction false} LeadingDigitsOfDigits(ds: string, rest: string)
    requires AllDigits(ds)
    requires |rest| == 0 || !IsDigit(rest[0])
    ensures LeadingDigits(ds + rest) == ds
  {
    if |ds| > 0 {
      assert (ds + rest)[1..] == ds[1..] + rest;
      LeadingDigitsOfDigits(ds[1..], rest);
    }
  }

  /** Reading back what `Integer#to_s` wrote gives the number again, whatever
      non-digit text follows it. */
  lemma ToINatToString(n: nat, rest: string)
    requires |rest| == 0 || !IsDigit(rest[0])
    ensures ToI(NatToString(n) + rest) == n
  {
    LeadingDigitsOfDigits(NatToString(n), rest);
  }

  // ---------------------------------------------------------------------------
  // Array#join and its inverse
  // ---------------------------------------------------------------------------

  /** `Array#join(sep)` on an array of strings. */
  function Join(xs: seq<string>, sep: string): string {
    if |xs| == 0 then "" else if |xs| == 1 then xs[0] else xs[0] + sep + Join(xs[1..], sep)
  }

  lemma {:induction false} JoinSnoc(xs: seq<string>, y: string, sep: string)
    requires |xs| >= 1
    ensures Join(xs + [y], sep) == Join(xs, sep) + sep + y
  {
    if |xs| > 1 {
      assert (xs + [y])[1..] == xs[1..] + [y];
      JoinSnoc(xs[1..], y, sep);
    }
  }

  lemma JoinTwo(a: string, b: string, sep: string)
    ensures Join([a, b], sep) == a + sep + b
  {
    assert [a, b][1..] == [b];
  }

  /** Cuts `s` at every occurrence of `c`; unlike Ruby's `String#split` it keeps
      empty pieces, so that it undoes `Join` exactly. */
  function Split(s: string, c: char): (r: seq<string>)
    ensures |r| >= 1
    ensures forall i :: 0 <= i < |r| ==> c !in r[i]
  {
    if |s| == 0 then [""]
    else if s[0] == c then [""] + Split(s[1..], c)
    else
      var t := Split(s[1..], c);
      [[s[0]] + t[0]] + t[1..]
  }

  lemma {:induction false} SplitNoSeparator(a: string, c: char)
    requires c !in a
    ensures Split(a, c) == [a]
  {
    if |a| > 0 {
      SplitNoSeparator(a[1..], c);
      assert a == [a[0]] + a[1..];
    }
  }

  lemma {:induction false} SplitAtFirst(a: string, c: char, b: string)
    requires c !in a
    ensures Split(a + [c] + b, c) == [a] + Split(b, c)
  {
    if |a| == 0 {
      assert a + [c] + b == [c] + b;
      assert ([c] + b)[1..] == b;
    } else {
      assert (a + [c] + b)[1..] == a[1..] + [c] + b;
      SplitAtFirst(a[1..], c, b);
      assert a == [a[0]] + a[1..];
    }
  }

  /** Splitting a join on a separator that no piece contains gives the pieces back. */
  lemma {:induction false} SplitJoin(xs: seq<string>, c: char)
    requires |xs| >= 1
    requires forall i :: 0 <= i < |xs| ==> c !in xs[i]
    ensures Split(Join(xs, [c]), c) == xs
  {
    if |xs| == 1 {
      SplitNoSeparator(xs[0], c);
    } else {
      SplitAtFirst(xs[0], c, Join(xs[1..], [c]));
      SplitJoin(xs[1..], c);
    }
  }

  /** The first position of `c` in `s`, or `|s|` when there is none. */
  function IndexOf(s: string, c: char): (k: nat)
    ensures k <= |s|
    ensures k < |s| ==> s[k] == c
    ensures c !in s[..k]
  {
    if |s| == 0 then 0 else if s[0] == c then 0 else 1 + IndexOf(s[1..], c)
  }

  // ---------------------------------------------------------------------------
  // Array#inspect on integers
  // ---------------------------------------------------------------------------

  /** `Integer#to_s` applied to every element. */
  function NatStrings(xs: seq<nat>): (r: seq<string>)
    ensures |r| == |xs|
  {
    if |xs| == 0 then [] else [NatToString(xs[0])] + NatStrings(xs[1..])
  }

  /** A character in neither the pieces nor the separator is not in the join. */
  lemma {:induction false} JoinAvoids(xs: seq<string>, sep: string, c: char)
    requires c !in sep
    requires forall i :: 0 <= i < |xs| ==> c !in xs[i]
    ensures c !in Join(xs, sep)
  {
    if |xs| > 1 {
      JoinAvoids(xs[1..], sep, c);
    }
  }

  /** `Array#to_s` (alias of `inspect`) of an array of non-negative integers. */
  function InspectInts(xs: seq<nat>): string {
    "[" + Join(NatStrings(xs), ", ") + "]"
  }

  /** The inspected form of integers is one line. */
  lemma InspectIntsOneLine(xs: seq<nat>)
    ensures '\n' !in InspectInts(xs)
  {
    var ds := NatStrings(xs);
    forall i | 0 <= i < |ds| ensures '\n' !in ds[i] {
      NatStringsAt(xs, i);
    }
    JoinAvoids(ds, ", ", '\n');
  }

  lemma {:induction false} NatStringsAt(xs: seq<nat>, i: nat)
    requires i < |xs|
    ensures NatStrings(xs)[i] == NatToString(xs[i])
  {
    if i > 0 {
      NatStringsAt(xs[1..], i - 1);
    }
  }

  lemma InspectOne(a: nat)
    ensures InspectInts([a]) == "[" + NatToString(a) + "]"
  {
    assert NatStrings([a]) == [NatToString(a)];
  }

  lemma InspectTwo(a: nat, b: nat)
    ensures InspectInts([a, b]) == "[" + NatToString(a) + ", " + NatToString(b) + "]"
  {
    assert [a, b][1..] == [b];
    assert NatStrings([b]) == [NatToString(b)];
    var ds := NatStrings([a, b]);
    assert ds == [NatToString(a)] + [NatToString(b)];
    assert ds[1..] == [NatToString(b)];
    assert Join(ds, ", ") == NatToString(a) + ", " + NatToString(b);
  }
}
