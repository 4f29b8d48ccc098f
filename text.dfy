/** The string operations the core borrows from JavaScript: ASCII lower-case
    folding, substring search (`includes`), `Array.prototype.join`, the
    default order of `Array.prototype.sort` on strings, character
    replacement, and decimal integers in both directions. */
module Text {
  import opened Common

  // ---------------------------------------------------------------- characters

  predicate IsDigit(c: char) {
    '0' <= c <= '9'
  }

  predicate AllOf(w: string, p: char -> bool) {
    forall k :: 0 <= k < |w| ==> p(w[k])
  }

  function LowerChar(c: char): char {
    if 'A' <= c <= 'Z' then (c as int - 'A' as int + 'a' as int) as char else c
  }

  /** `toLowerCase` on the ASCII letters; every other character is kept. */
  function ToLower(s: string): (r: string)
    ensures |r| == |s|
    ensures forall k :: 0 <= k < |s| ==> r[k] == LowerChar(s[k])
  {
    seq(|s|, k requires 0 <= k < |s| => LowerChar(s[k]))
  }

  /** `s.replace(/_/g, " ")` generalised to any pair of characters. */
  function ReplaceChar(s: string, from: char, to: char): (r: string)
    ensures |r| == |s|
    ensures forall k :: 0 <= k < |s| ==> r[k] == if s[k] == from then to else s[k]
  {
    seq(|s|, k requires 0 <= k < |s| => if s[k] == from then to else s[k])
  }

  // ---------------------------------------------------------------- substrings

  /** `s.includes(w)`: `w` is a prefix of some suffix of `s`. */
  predicate Contains(s: string, w: string)
    decreases |s|
  {
    w <= s || (|s| > 0 && Contains(s[1..], w))
  }

  /** `Contains` agrees with the position-based reading of `includes`. */
  lemma {:induction false} ContainsAt(s: string, w: string)
    ensures Contains(s, w) <==> exists i :: 0 <= i <= |s| && w <= s[i..]
    decreases |s|
  {
    assert s[0..] == s;
    if |s| > 0 {
      ContainsAt(s[1..], w);
      if Contains(s[1..], w) {
        var i :| 0 <= i <= |s[1..]| && w <= s[1..][i..];
        assert s[1..][i..] == s[i + 1..];
      }
      if exists i :: 0 <= i <= |s| && w <= s[i..] {
        var i :| 0 <= i <= |s| && w <= s[i..];
        if i > 0 {
          assert s[1..][i - 1..] == s[i..];
        }
      }
    }
  }

  /** A word holding a character the text lacks does not occur in it. */
  lemma ContainsNeedsChar(s: string, w: string, k: nat)
    requires k < |w| && w[k] !in s
    ensures !Contains(s, w)
  {
    ContainsAt(s, w);
    forall i | 0 <= i <= |s|
      ensures !(w <= s[i..])
    {
      if i + k < |s| {
        assert s[i..][k] == s[i + k];
      }
    }
  }

  /** A slice of a slice is a slice of the original string. */
  lemma SliceOfSlice(s: string, i: nat, e: nat, a: nat, b: nat)
    requires i <= e <= |s| && a <= b <= e - i
    ensures s[i..e][a..b] == s[i + a..i + b]
    ensures s[i..e][a..] == s[i + a..e]
  {
    assert forall k :: 0 <= k < b - a ==> s[i..e][a..b][k] == s[i + a..i + b][k];
    assert forall k :: 0 <= k < e - i - a ==> s[i..e][a..][k] == s[i + a..e][k];
  }

  // ---------------------------------------------------------------- join

  /** `parts.join(sep)`. */
  function Join(parts: seq<string>, sep: string): string {
    if parts == [] then ""
    else if |parts| == 1 then parts[0]
    else parts[0] + sep + Join(parts[1..], sep)
  }

  /** A joined text opens with its first part, followed by the separator when
      more parts come. */
  lemma JoinOpensWithFirst(parts: seq<string>, sep: string)
    requires |parts| > 0
    ensures parts[0] <= Join(parts, sep)
    ensures |parts| > 1 ==> parts[0] + sep <= Join(parts, sep)
  {
    if |parts| > 1 {
      assert Join(parts, sep) == (parts[0] + sep) + Join(parts[1..], sep);
    }
  }

  // ---------------------------------------------------------------- string order

  /** The order `Array.prototype.sort` uses by default: compare character by
      character, the first difference decides, a proper prefix comes first. */
  predicate Below(a: string, b: string)
    decreases |a|
  {
    |b| > 0 && (|a| == 0 || a[0] < b[0] || (a[0] == b[0] && Below(a[1..], b[1..])))
  }

  lemma {:induction false} BelowIrreflexive(a: string)
    ensures !Below(a, a)
    decreases |a|
  {
    if |a| > 0 {
      BelowIrreflexive(a[1..]);
    }
  }

  lemma {:induction false} BelowTransitive(a: string, b: string, c: string)
    requires Below(a, b) && Below(b, c)
    ensures Below(a, c)
    decreases |a|
  {
    if |a| > 0 && a[0] == b[0] && b[0] == c[0] {
      BelowTransitive(a[1..], b[1..], c[1..]);
    }
  }

  lemma BelowAsymmetric(a: string, b: string)
    requires Below(a, b)
    ensures !Below(b, a)
  {
    if Below(b, a) {
      BelowTransitive(a, b, a);
      BelowIrreflexive(a);
    }
  }

  lemma {:induction false} BelowTotal(a: string, b: string)
    ensures a == b || Below(a, b) || Below(b, a)
    decreases |a|
  {
    if |a| > 0 && |b| > 0 && a[0] == b[0] {
      BelowTotal(a[1..], b[1..]);
      if a[1..] == b[1..] {
        assert a == [a[0]] + a[1..] && b == [b[0]] + b[1..];
      }
    }
  }

  predicate StrictlySorted(s: seq<string>) {
    forall i, j :: 0 <= i < j < |s| ==> Below(s[i], s[j])
  }

  /** Insertion of one string into a strictly sorted list of distinct strings. */
  function InsertSorted(s: seq<string>, x: string): (r: seq<string>)
    requires StrictlySorted(s)
    ensures StrictlySorted(r)
    ensures forall y :: y in r <==> y in s || y == x
  {
    if s == [] then [x]
    else if x == s[0] then s
    else if Below(x, s[0]) then
      assert forall j :: 0 < j < |s| ==> Below(x, s[j]) by {
        forall j | 0 < j < |s| ensures Below(x, s[j]) { BelowTransitive(x, s[0], s[j]); }
      }
      [x] + s
    else
      var t := InsertSorted(s[1..], x);
      assert Below(s[0], x) by { BelowTotal(x, s[0]); }
      assert forall y :: y in t ==> Below(s[0], y) by {
        forall y | y in t ensures Below(s[0], y) {
          if y != x {
            var j :| 0 <= j < |s[1..]| && s[1..][j] == y;
            assert s[j + 1] == y;
          }
        }
      }
      [s[0]] + t
  }

  /** `Array.from(new Set(xs)).sort()`: the distinct strings of `xs` in
      ascending order. */
  function SortedSet(xs: seq<string>): (r: seq<string>)
    ensures StrictlySorted(r)
    ensures forall y :: y in r <==> y in xs
  {
    if xs == [] then []
    else
      assert forall y :: y in xs <==> y in DropLast(xs) || y == Last(xs);
      InsertSorted(SortedSet(DropLast(xs)), Last(xs))
  }

  /** Two strictly sorted lists with the same elements are the same list. */
  lemma {:induction false} StrictlySortedUnique(a: seq<string>, b: seq<string>)
    requires StrictlySorted(a) && StrictlySorted(b)
    requires forall y :: y in a <==> y in b
    ensures a == b
    decreases |a|
  {
    if a != [] {
      assert a[0] in b;
    }
    if b != [] {
      assert b[0] in a;
    }
    if a != [] && b != [] {
      var ka :| 0 <= ka < |a| && a[ka] == b[0];
      var kb :| 0 <= kb < |b| && b[kb] == a[0];
      if Below(a[0], b[0]) {
        BelowAsymmetric(a[0], b[0]);
      }
      assert a[0] == b[0];
      forall y
        ensures y in a[1..] <==> y in b[1..]
      {
        if y in a[1..] {
          var j :| 0 <= j < |a[1..]| && a[1..][j] == y;
          assert Below(a[0], a[j + 1]);
          BelowIrreflexive(y);
          assert y in a;
          var k :| 0 <= k < |b| && b[k] == y;
          assert b[1..][k - 1] == y;
        }
        if y in b[1..] {
          var j :| 0 <= j < |b[1..]| && b[1..][j] == y;
          assert Below(b[0], b[j + 1]);
          BelowIrreflexive(y);
          assert y in b;
          var k :| 0 <= k < |a| && a[k] == y;
          assert a[1..][k - 1] == y;
        }
      }
      StrictlySortedUnique(a[1..], b[1..]);
      assert a == [a[0]] + a[1..] && b == [b[0]] + b[1..];
    }
  }

  /** `SortedSet` is the one strictly sorted list of the distinct elements, so
      it does not depend on the order in which they were discovered. */
  lemma SortedSetIgnoresOrder(xs: seq<string>, ys: seq<string>)
    requires forall y :: y in xs <==> y in ys
    ensures SortedSet(xs) == SortedSet(ys)
  {
    StrictlySortedUnique(SortedSet(xs), SortedSet(ys));
  }

  // ---------------------------------------------------------------- decimals

  function DigitValue(c: char): nat
    requires IsDigit(c)
  {
    c as int - '0' as int
  }

  /** The value of a string of decimal digits, most significant first. */
  function DigitsValue(s: string): nat
    requires AllOf(s, IsDigit)
    decreases |s|
  {
    if s == [] then 0 else DigitsValue(DropLast(s)) * 10 + DigitValue(Last(s))
  }

  /** `String(n)` for a natural number: its decimal digits, no leading zero. */
  function NatToString(n: nat): (s: string)
    ensures |s| > 0 && AllOf(s, IsDigit)
    ensures |s| > 1 ==> s[0] != '0'
  {
    if n < 10 then ["0123456789"[n]]
    else NatToString(n / 10) + ["0123456789"[n % 10]]
  }

  /** `Number(s)` restricted to decimal integers: an optional sign and one or
      more digits; anything else is not a number. */
  function ParseAmount(s: string): (r: Option<int>)
    ensures r.Some? ==> |s| > 0 && (r.value < 0 ==> s[0] == '-')
    ensures r.Some? <==>
      (|s| > 0 && AllOf(s, IsDigit)) || (|s| > 1 && (s[0] == '-' || s[0] == '+') && AllOf(s[1..], IsDigit))
    ensures |s| > 0 && AllOf(s, IsDigit) ==> r == Some(DigitsValue(s))
    ensures |s| > 1 && s[0] == '+' && AllOf(s[1..], IsDigit) ==> r == Some(DigitsValue(s[1..]))
    ensures |s| > 1 && s[0] == '-' && AllOf(s[1..], IsDigit) ==> r == Some(-(DigitsValue(s[1..]) as int))
  {
    if |s| > 0 && (s[0] == '-' || s[0] == '+') then
      if |s| > 1 && AllOf(s[1..], IsDigit) then
        Some(if s[0] == '-' then -(DigitsValue(s[1..]) as int) else DigitsValue(s[1..]))
      else None
    else if |s| > 0 && AllOf(s, IsDigit) then Some(DigitsValue(s))
    else None
  }

  /** Printing a number and parsing it back gives the number. */
  lemma {:induction false} NatToStringValue(n: nat)
    ensures DigitsValue(NatToString(n)) == n
  {
    if n >= 10 {
      NatToStringValue(n / 10);
      var s := NatToString(n);
      assert DropLast(s) == NatToString(n / 10);
    }
  }

  lemma NatToStringRoundTrip(n: nat)
    ensures ParseAmount(NatToString(n)) == Some(n)
    ensures n > 0 ==> ParseAmount("-" + NatToString(n)) == Some(-(n as int))
  {
    NatToStringValue(n);
    var s := NatToString(n);
    assert ("-" + s)[1..] == s;
  }
}
