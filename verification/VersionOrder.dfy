/** The order the update check puts on version strings, compared with the order of the numbers in them. */
module VersionOrders {
  import opened UpdateDecisions

  /** A decimal numeral without leading zeros. */
  function Digits(n: nat): (s: string)
    ensures s != "" && forall i :: 0 <= i < |s| ==> '0' <= s[i] <= '9'
  {
    if n < 10 then [Digit(n)] else Digits(n / 10) + [Digit(n % 10)]
  }

  function Digit(d: nat): (c: char)
    requires d < 10
    ensures '0' <= c <= '9'
  {
    '0' + d as char
  }

  /** Numbers separated by dots. */
  function Dotted(v: seq<nat>): string {
    if v == [] then "" else Digits(v[0]) + Rest(v[1..])
  }

  /** What follows the first number. */
  function Rest(v: seq<nat>): string
    decreases |v|
  {
    if v == [] then "" else "." + (Digits(v[0]) + Rest(v[1..]))
  }

  /** The order of versions by their numbers, a shorter version before its extensions. */
  predicate NumericallyLess(v: seq<nat>, w: seq<nat>) {
    w != [] && (v == [] || v[0] < w[0] || (v[0] == w[0] && NumericallyLess(v[1..], w[1..])))
  }

  /** The first numbers that differ, if any, have the same number of digits, or else the one with fewer digits is the
      smaller string. */
  predicate DigitsDecideRightly(v: seq<nat>, w: seq<nat>) {
    if v == [] || w == [] then true
    else if v[0] == w[0] then DigitsDecideRightly(v[1..], w[1..])
    else
      var a, b := Digits(v[0]), Digits(w[0]);
      && (|a| < |b| ==> Less(a, b))
      && (|b| < |a| ==> Less(b, a))
  }

  // ---------------------------------------------------------------- single numbers

  /** The last character decides between strings of the same length only if nothing before it does. */
  lemma {:induction false} LessAtEnd(a: string, b: string, c: char, d: char)
    requires |a| == |b|
    ensures Less(a + [c], b + [d]) <==> Less(a, b) || (a == b && c < d)
    decreases |a|
  {
    if a != "" {
      assert (a + [c])[1..] == a[1..] + [c] && (b + [d])[1..] == b[1..] + [d];
      LessAtEnd(a[1..], b[1..], c, d);
      assert a == [a[0]] + a[1..] && b == [b[0]] + b[1..];
    } else {
      assert [c][1..] == "" && [d][1..] == "";
    }
  }

  /** Among numerals of the same length the order of strings is that of numbers. */
  lemma {:induction false} SameLengthIsNumeric(a: nat, b: nat)
    requires |Digits(a)| == |Digits(b)|
    ensures Less(Digits(a), Digits(b)) <==> a < b
    ensures Digits(a) == Digits(b) <==> a == b
    decreases a
  {
    if a < 10 {
      assert [Digit(a)][1..] == "" && [Digit(b)][1..] == "";
    } else {
      var x, y, c, d := Digits(a / 10), Digits(b / 10), Digit(a % 10), Digit(b % 10);
      SameLengthIsNumeric(a / 10, b / 10);
      LessAtEnd(x, y, c, d);
      assert Digits(a)[..|x|] == x && Digits(b)[..|y|] == y;
      assert Digits(a)[|x|] == c && Digits(b)[|y|] == d;
    }
  }

  /** A numeral with fewer digits stands for a smaller number. */
  lemma {:induction false} FewerDigitsIsSmaller(a: nat, b: nat)
    requires |Digits(a)| < |Digits(b)|
    ensures a < b
    decreases a
  {
    if a >= 10 {
      FewerDigitsIsSmaller(a / 10, b / 10);
    }
  }

  // ---------------------------------------------------------------- whole versions

  /** Text behind two different numerals: nothing, or something that starts with a character below the digits. */
  predicate BelowDigits(s: string) {
    s == "" || s[0] < '0'
  }

  predicate IsNumeral(s: string) {
    forall i :: 0 <= i < |s| ==> '0' <= s[i]
  }

  /** Behind different numerals nothing matters any more. */
  lemma {:induction false} NumeralsDecide(a: string, b: string, x: string, y: string)
    requires IsNumeral(a) && IsNumeral(b) && a != b && BelowDigits(x) && BelowDigits(y)
    ensures Less(a + x, b + y) <==> Less(a, b)
    decreases |a|
  {
    if a == "" || b == "" {
      assert a == "" ==> a + x == x && (b + y)[0] == b[0];
      assert b == "" ==> b + y == y && (a + x)[0] == a[0];
    } else {
      assert (a + x)[1..] == a[1..] + x && (b + y)[1..] == b[1..] + y;
      if a[0] == b[0] {
        assert a == [a[0]] + a[1..] && b == [b[0]] + b[1..];
        NumeralsDecide(a[1..], b[1..], x, y);
      }
    }
  }

  /** A common beginning does not matter. */
  lemma {:induction false} CommonPrefix(p: string, x: string, y: string)
    ensures Less(p + x, p + y) <==> Less(x, y)
    decreases |p|
  {
    if p == "" {
      assert p + x == x && p + y == y;
    } else {
      assert (p + x)[1..] == p[1..] + x && (p + y)[1..] == p[1..] + y;
      CommonPrefix(p[1..], x, y);
    }
  }

  lemma RestIsBelowDigits(v: seq<nat>)
    ensures BelowDigits(Rest(v))
  {
  }

  /** The strings agree with the numbers in one comparison of numerals exactly if the digits decide rightly. */
  lemma NumeralsAgreeExactly(a: nat, b: nat)
    requires a != b
    ensures Digits(a) != Digits(b)
    ensures (Less(Digits(a), Digits(b)) <==> a < b) <==>
      && (|Digits(a)| < |Digits(b)| ==> Less(Digits(a), Digits(b)))
      && (|Digits(b)| < |Digits(a)| ==> Less(Digits(b), Digits(a)))
  {
    var x, y := Digits(a), Digits(b);
    if |x| == |y| {
      SameLengthIsNumeric(a, b);
    } else {
      LessIsTotal(x, y);
      LessIsAsymmetric(x, y);
      if |x| < |y| {
        FewerDigitsIsSmaller(a, b);
      } else {
        FewerDigitsIsSmaller(b, a);
      }
    }
  }

  lemma LessIsAsymmetric(a: string, b: string)
    ensures !(Less(a, b) && Less(b, a))
  {
    if Less(a, b) && Less(b, a) {
      LessIsTransitive(a, b, a);
      LessIsIrreflexive(a);
    }
  }

  lemma {:induction false} RestOrder(v: seq<nat>, w: seq<nat>)
    ensures (Less(Rest(v), Rest(w)) <==> NumericallyLess(v, w)) <==> DigitsDecideRightly(v, w)
    decreases |v|
  {
    if v != [] && w != [] {
      CommonPrefix(".", Digits(v[0]) + Rest(v[1..]), Digits(w[0]) + Rest(w[1..]));
      TailOrder(v, w);
    }
  }

  lemma {:induction false} TailOrder(v: seq<nat>, w: seq<nat>)
    requires v != [] && w != []
    ensures (Less(Digits(v[0]) + Rest(v[1..]), Digits(w[0]) + Rest(w[1..])) <==> NumericallyLess(v, w)) <==>
            DigitsDecideRightly(v, w)
    decreases |v|, 0
  {
    hide Less, Digits;
    if v[0] == w[0] {
      CommonPrefix(Digits(v[0]), Rest(v[1..]), Rest(w[1..]));
      RestOrder(v[1..], w[1..]);
    } else {
      NumeralsAgreeExactly(v[0], w[0]);
      RestIsBelowDigits(v[1..]);
      RestIsBelowDigits(w[1..]);
      NumeralsDecide(Digits(v[0]), Digits(w[0]), Rest(v[1..]), Rest(w[1..]));
    }
  }

  /** For dotted versions the order of the update check is the order of their numbers exactly if, at the first number in
      which they differ, the one with fewer digits is also the smaller string. */
  lemma OrderIsNumericExactly(v: seq<nat>, w: seq<nat>)
    ensures (IsRemoteVersionNewerThanLocal(Dotted(v), Dotted(w)) <==> NumericallyLess(v, w)) <==>
            DigitsDecideRightly(v, w)
  {
    if v != [] && w != [] {
      TailOrder(v, w);
    }
  }

  /** Version 10 counts as older than version 9. */
  lemma TenComesBeforeNine()
    ensures Dotted([10]) == "10" && Dotted([9]) == "9"
    ensures IsRemoteVersionNewerThanLocal(Dotted([10]), Dotted([9])) && NumericallyLess([9], [10])
  {
    assert Digits(10) == Digits(1) + ['0'];
    assert [10][1..] == [] && [9][1..] == [];
    assert Less("10", "9");
  }
}
