/**
 * The pieces of the Swift standard library that version parsing and
 * rendering rely on: `Int(_: String)`, string interpolation of an `Int`,
 * `split(separator:)` and `joined(separator:)`. Strings are sequences of
 * characters; Swift's grapheme clusters are not modelled.
 */
module Strings {
  import opened Wrappers

  predicate IsDigit(c: char) {
    '0' <= c <= '9'
  }

  predicate AllDigits(s: string) {
    forall i :: 0 <= i < |s| ==> IsDigit(s[i])
  }

  function DigitValue(c: char): (d: nat)
    requires IsDigit(c)
  {
    c as int - '0' as int
  }

  function DigitChar(d: nat): (c: char)
    requires d < 10
    ensures IsDigit(c) && DigitValue(c) == d
  {
    ('0' as int + d) as char
  }

  /** The number a string of decimal digits denotes, most significant digit first. */
  function DigitsValue(s: string): (n: nat)
    requires AllDigits(s)
    decreases |s|
  {
    if s == [] then 0 else 10 * DigitsValue(s[..|s| - 1]) + DigitValue(s[|s| - 1])
  }

  /**
   * Swift's failable `Int(_: String)`: an optional '+' or '-' followed by
   * at least one ASCII digit; every other string gives nil. (Swift also
   * gives nil for a value outside the 64-bit range; integers are unbounded
   * here, so that case does not arise.)
   */
  function ParseInt(s: string): (r: Option<int>)
    ensures r.Some? <==>
      (|s| > 0 && AllDigits(s)) || (|s| > 1 && (s[0] == '+' || s[0] == '-') && AllDigits(s[1..]))
    ensures |s| > 0 && AllDigits(s) ==> r == Some(DigitsValue(s))
    ensures |s| > 1 && s[0] == '+' && AllDigits(s[1..]) ==> r == Some(DigitsValue(s[1..]))
    ensures |s| > 1 && s[0] == '-' && AllDigits(s[1..]) ==> r == Some(-(DigitsValue(s[1..]) as int))
  {
    if |s| > 1 && s[0] == '+' && AllDigits(s[1..]) then Some(DigitsValue(s[1..]) as int)
    else if |s| > 1 && s[0] == '-' && AllDigits(s[1..]) then Some(-(DigitsValue(s[1..]) as int))
    else if |s| > 0 && AllDigits(s) then Some(DigitsValue(s) as int)
    else None
  }

  /** Decimal rendering of a natural number, without leading zeros. */
  function NatToString(n: nat): (s: string)
    ensures |s| > 0 && AllDigits(s)
    decreases n
  {
    if n < 10 then [DigitChar(n)] else NatToString(n / 10) + [DigitChar(n % 10)]
  }

  /** String interpolation `"\(i)"` of an `Int`. */
  function IntToString(i: int): (s: string) {
    if i < 0 then "-" + NatToString(-i) else NatToString(i)
  }

  lemma {:induction false} DigitsValueOfNatToString(n: nat)
    ensures DigitsValue(NatToString(n)) == n
    decreases n
  {
    if n >= 10 {
      var s := NatToString(n);
      assert s[..|s| - 1] == NatToString(n / 10);
      DigitsValueOfNatToString(n / 10);
    }
  }

  /** Rendering an integer and reading it back with `Int(_:)` gives the integer. */
  lemma ParseIntOfIntToString(i: int)
    ensures ParseInt(IntToString(i)) == Some(i)
  {
    if i < 0 {
      var s := IntToString(i);
      assert s[1..] == NatToString(-i);
      DigitsValueOfNatToString(-i);
    } else {
      DigitsValueOfNatToString(i);
    }
  }

  /** `"\(i)"` is the string "0" exactly for zero. */
  lemma IntToStringIsZero(i: int)
    ensures IntToString(i) == "0" <==> i == 0
  {
    if i < 0 {
      assert IntToString(i)[0] == '-';
    } else if i >= 10 {
      assert |NatToString(i)| >= 2;
    }
  }

  /** The index of the first `c` in `s`, or `|s|` when there is none. */
  function Find(s: string, c: char): (k: nat)
    ensures k <= |s|
    ensures forall i :: 0 <= i < k ==> s[i] != c
    ensures k < |s| ==> s[k] == c
    decreases |s|
  {
    if s == [] || s[0] == c then 0 else 1 + Find(s[1..], c)
  }

  /**
   * Swift's `split(separator:)` with its default arguments: the runs of `s`
   * between occurrences of `sep`, in order, with empty runs omitted.
   */
  function Split(s: string, sep: char): (pieces: seq<string>)
    ensures forall i :: 0 <= i < |pieces| ==> pieces[i] != [] && sep !in pieces[i]
    decreases |s|
  {
    var k := Find(s, sep);
    if k == |s| then
      (if s == [] then [] else [s])
    else
      (if k == 0 then [] else [s[..k]]) + Split(s[k + 1..], sep)
  }

  /** Swift's `joined(separator:)` with a one-character separator. */
  function Join(pieces: seq<string>, sep: char): (joined: string)
    decreases |pieces|
  {
    if pieces == [] then ""
    else if |pieces| == 1 then pieces[0]
    else pieces[0] + [sep] + Join(pieces[1..], sep)
  }

  /** Splitting a join of non-empty, separator-free pieces gives the pieces back. */
  lemma {:induction false} SplitJoin(pieces: seq<string>, sep: char)
    requires forall i :: 0 <= i < |pieces| ==> pieces[i] != [] && sep !in pieces[i]
    ensures Split(Join(pieces, sep), sep) == pieces
    decreases |pieces|
  {
    if |pieces| == 1 {
      var p := pieces[0];
      assert Find(p, sep) == |p|;
    } else if |pieces| > 1 {
      var p := pieces[0];
      var rest := Join(pieces[1..], sep);
      var s := p + [sep] + rest;
      assert s[|p|] == sep;
      assert Find(s, sep) == |p|;
      assert s[..|p|] == p;
      assert s[|p| + 1..] == rest;
      SplitJoin(pieces[1..], sep);
    }
  }

  /** The first separator of `a + b` is the first of `a`, or else the first of `b` shifted past `a`. */
  lemma {:induction false} FindAppend(a: string, b: string, c: char)
    ensures Find(a + b, c) == if Find(a, c) < |a| then Find(a, c) else |a| + Find(b, c)
    decreases |a|
  {
    if a == [] {
      assert a + b == b;
    } else {
      assert (a + b)[0] == a[0];
      assert (a + b)[1..] == a[1..] + b;
      FindAppend(a[1..], b, c);
    }
  }

  /** A separator at the start is dropped. */
  lemma SplitLeadingSeparator(b: string, sep: char)
    ensures Split([sep] + b, sep) == Split(b, sep)
  {
    assert ([sep] + b)[1..] == b;
  }

  /** Splitting `a + x` where `a` holds a separator: the first piece comes from `a`. */
  lemma SplitAppendAfterSeparator(a: string, x: string, sep: char)
    requires Find(a, sep) < |a|
    ensures var k := Find(a, sep);
      Split(a + x, sep) == (if k == 0 then [] else [a[..k]]) + Split(a[k + 1..] + x, sep)
  {
    var k := Find(a, sep);
    FindAppend(a, x, sep);
    assert (a + x)[..k] == a[..k];
    assert (a + x)[k + 1..] == a[k + 1..] + x;
  }

  /** Splitting `a + x` where `a` holds no separator and `x` starts with one: `a` is the first piece. */
  lemma SplitAppendAtSeparator(a: string, x: string, sep: char)
    requires Find(a, sep) == |a| && |x| > 0 && x[0] == sep
    ensures Split(a + x, sep) == (if a == [] then [] else [a]) + Split(x[1..], sep)
  {
    FindAppend(a, x, sep);
    assert (a + x)[..|a|] == a;
    assert (a + x)[|a| + 1..] == x[1..];
  }

  /** A separator directly after another is dropped: splitting ignores empty pieces. */
  lemma {:induction false} SplitDoubledSeparator(a: string, b: string, sep: char)
    ensures Split(a + ([sep, sep] + b), sep) == Split(a + ([sep] + b), sep)
    decreases |a|
  {
    var k := Find(a, sep);
    if k < |a| {
      SplitAppendAfterSeparator(a, [sep, sep] + b, sep);
      SplitAppendAfterSeparator(a, [sep] + b, sep);
      SplitDoubledSeparator(a[k + 1..], b, sep);
    } else {
      SplitAppendAtSeparator(a, [sep, sep] + b, sep);
      SplitAppendAtSeparator(a, [sep] + b, sep);
      assert ([sep, sep] + b)[1..] == [sep] + b;
      assert ([sep] + b)[1..] == b;
      SplitLeadingSeparator(b, sep);
    }
  }

  /** A separator at the end is dropped. */
  lemma {:induction false} SplitTrailingSeparator(a: string, sep: char)
    ensures Split(a + [sep], sep) == Split(a, sep)
    decreases |a|
  {
    var k := Find(a, sep);
    FindAppend(a, [sep], sep);
    if k < |a| {
      assert (a + [sep])[..k] == a[..k];
      assert (a + [sep])[k + 1..] == a[k + 1..] + [sep];
      SplitTrailingSeparator(a[k + 1..], sep);
    } else {
      assert (a + [sep])[..k] == a;
      assert (a + [sep])[k + 1..] == [];
    }
  }
}
