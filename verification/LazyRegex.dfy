/** A backtracking matcher for regular expressions made of literals and lazy `.*?`, in the order ECMAScript prescribes
    (ECMA-262 3rd edition, section 15.10.2.5: a non-greedy quantifier tries the continuation before another character),
    and the proof that for the shape `UpdateChecker.hpp` uses, backtracking is never needed. */
module LazyRegex {
  import opened Options

  datatype Item = Lit(text: string) | Lazy

  /** `.` matches anything but a line terminator (section 15.10.2.8). */
  predicate Dot(c: char) {
    c != '\n' && c != '\r'
  }

  predicate AllDots(s: string) {
    forall i :: 0 <= i < |s| ==> Dot(s[i])
  }

  lemma DotsOfSlice(s: string, a: nat, b: nat)
    requires a <= b <= |s| && AllDots(s[..b])
    ensures AllDots(s[a..][..b - a])
  {
    var slice := s[a..][..b - a];
    forall i | 0 <= i < |slice| ensures Dot(slice[i]) {
      assert Dot(s[..b][i + a]);
    }
  }

  /** Matches `items` at the start of `s`: the number of characters each item takes, in the first way that works. */
  function Match(items: seq<Item>, s: string): Option<seq<nat>>
    decreases |items|, |s| + 1
  {
    if items == [] then Some([])
    else match items[0]
      case Lit(text) => if text <= s then Prepend(|text|, Match(items[1..], s[|text|..])) else None
      case Lazy => Try(items[1..], s)
  }

  /** A lazy item followed by `rest`: take nothing if `rest` then matches, else one more character. */
  function Try(rest: seq<Item>, s: string): Option<seq<nat>>
    decreases |rest| + 1, |s|
  {
    var now := Match(rest, s);
    if now.Some? then Prepend(0, now)
    else if s != "" && Dot(s[0]) then OneMore(Try(rest, s[1..]))
    else None
  }

  function Prepend(n: nat, r: Option<seq<nat>>): Option<seq<nat>> {
    if r.None? then None else Some([n] + r.value)
  }

  function OneMore(r: Option<seq<nat>>): Option<seq<nat>> {
    if r.None? || r.value == [] then r else Some([r.value[0] + 1] + r.value[1..])
  }

  // ---------------------------------------------------------------- what a match is

  /** `takes` says how `items` divide up a beginning of `s`. */
  ghost predicate IsMatch(items: seq<Item>, s: string, takes: seq<nat>)
    decreases |items|
  {
    && |takes| == |items|
    && (items != [] ==>
          && takes[0] <= |s|
          && (match items[0]
              case Lit(text) => s[..takes[0]] == text
              case Lazy => AllDots(s[..takes[0]]))
          && IsMatch(items[1..], s[takes[0]..], takes[1..]))
  }

  lemma {:induction false} MatchIsMatch(items: seq<Item>, s: string)
    requires Match(items, s).Some?
    ensures IsMatch(items, s, Match(items, s).value)
    decreases |items|, |s| + 1
  {
    if items != [] {
      match items[0] {
        case Lit(text) =>
          MatchIsMatch(items[1..], s[|text|..]);
          var r := Match(items[1..], s[|text|..]).value;
          assert ([|text|] + r)[1..] == r;
        case Lazy =>
          TryIsMatch(items[1..], s);
      }
    }
  }

  /** A lazy item's part of a match: some characters, then a match of the rest. */
  ghost predicate IsLazyMatch(rest: seq<Item>, s: string, takes: seq<nat>) {
    |takes| == |rest| + 1 && takes[0] <= |s| && AllDots(s[..takes[0]]) && IsMatch(rest, s[takes[0]..], takes[1..])
  }

  lemma {:induction false} TryIsMatch(rest: seq<Item>, s: string)
    requires Try(rest, s).Some?
    ensures IsLazyMatch(rest, s, Try(rest, s).value)
    decreases |rest| + 1, |s|
  {
    var now := Match(rest, s);
    if now.Some? {
      MatchIsMatch(rest, s);
      assert ([0] + now.value)[1..] == now.value && s[0..] == s;
    } else {
      TryIsMatch(rest, s[1..]);
      var r, t := Try(rest, s[1..]).value, Try(rest, s).value;
      assert t[1..] == r[1..] && s[1..][r[0]..] == s[t[0]..];
      assert forall i :: 0 <= i < t[0] ==> s[i] == if i == 0 then s[0] else s[1..][i - 1];
      assert AllDots(s[..t[0]]) by {
        assert forall i :: 0 < i < t[0] ==> s[1..][..r[0]][i - 1] == s[i];
      }
    }
  }

  /** Nothing matches that the matcher would miss, and it returns the lexicographically first match there is. */
  lemma {:induction false} MatchIsFirst(items: seq<Item>, s: string, takes: seq<nat>)
    requires IsMatch(items, s, takes)
    ensures Match(items, s).Some? && !Before(takes, Match(items, s).value)
    decreases |items|, |s| + 1
  {
    if items != [] {
      match items[0] {
        case Lit(text) =>
          assert takes[0] == |text| && text <= s;
          MatchIsFirst(items[1..], s[|text|..], takes[1..]);
          var r := Match(items[1..], s[|text|..]).value;
          assert ([|text|] + r)[1..] == r;
        case Lazy =>
          TryIsFirst(items[1..], s, takes);
      }
    }
  }

  predicate Before(a: seq<nat>, b: seq<nat>) {
    a != [] && b != [] && (a[0] < b[0] || (a[0] == b[0] && Before(a[1..], b[1..])))
  }

  lemma {:induction false} TryIsFirst(rest: seq<Item>, s: string, takes: seq<nat>)
    requires IsLazyMatch(rest, s, takes)
    ensures Try(rest, s).Some? && !Before(takes, Try(rest, s).value)
    decreases |rest| + 1, |s|
  {
    var now := Match(rest, s);
    if takes[0] == 0 {
      assert s[0..] == s;
      MatchIsFirst(rest, s, takes[1..]);
      assert ([0] + now.value)[1..] == now.value;
    } else if now.Some? {
    } else {
      var fewer := [takes[0] - 1] + takes[1..];
      assert s[0] == s[..takes[0]][0] && s[1..][fewer[0]..] == s[takes[0]..] && fewer[1..] == takes[1..];
      assert AllDots(s[1..][..fewer[0]]) by {
        assert forall i :: 0 <= i < fewer[0] ==> s[1..][..fewer[0]][i] == s[..takes[0]][i + 1];
      }
      TryIsFirst(rest, s[1..], fewer);
      TryIsMatch(rest, s[1..]);
      var r, t := Try(rest, s[1..]).value, Try(rest, s).value;
      assert t[1..] == r[1..];
    }
  }

  // ---------------------------------------------------------------- no backtracking needed

  /** Where `text` first occurs, reached over ordinary characters only. */
  function FirstAt(text: string, s: string): Option<nat> {
    if text <= s then Some(0)
    else if s != "" && Dot(s[0]) then
      var r := FirstAt(text, s[1..]);
      if r.None? then None else Some(r.value + 1)
    else None
  }

  lemma {:induction false} FirstAtIsThere(text: string, s: string)
    requires FirstAt(text, s).Some?
    ensures FirstAt(text, s).value + |text| <= |s| && text <= s[FirstAt(text, s).value..]
    ensures AllDots(s[..FirstAt(text, s).value])
    decreases |s|
  {
    if !(text <= s) {
      FirstAtIsThere(text, s[1..]);
      var k := FirstAt(text, s[1..]).value;
      assert s[1..][k..] == s[k + 1..];
      assert forall i :: 0 < i <= k ==> s[1..][..k][i - 1] == s[i];
    } else {
      assert s[0..] == s;
    }
  }

  /** Each lazy item comes before a literal, no two literals meet, and a literal stays on its line. */
  predicate Alternates(items: seq<Item>)
    decreases |items|
  {
    items == [] ||
    (|items| >= 2 && items[0].Lazy? && items[1].Lit? && items[1].text != "" && AllDots(items[1].text) &&
      Alternates(items[2..]))
  }

  /** The plain scan: from literal to literal, each at its first occurrence, never going back. */
  function Scan(items: seq<Item>, s: string): Option<seq<nat>>
    requires Alternates(items)
    decreases |items|, 0
  {
    if items == [] then Some([]) else ScanLazy(items[1].text, items[2..], s)
  }

  function ScanLazy(text: string, rest: seq<Item>, s: string): Option<seq<nat>>
    requires Alternates(rest)
    decreases |rest|, 1
  {
    var at := FirstAt(text, s);
    if at.None? then None
    else
      FirstAtIsThere(text, s);
      Prepend(at.value, Prepend(|text|, Scan(rest, s[at.value + |text|..])))
  }

  lemma ScanLazyShifts(text: string, rest: seq<Item>, s: string)
    requires Alternates(rest) && !(text <= s) && s != "" && Dot(s[0])
    ensures ScanLazy(text, rest, s) == OneMore(ScanLazy(text, rest, s[1..]))
  {
    hide Scan, Alternates;
    var at := FirstAt(text, s[1..]);
    if at.Some? {
      FirstAtIsThere(text, s[1..]);
      assert s[1..][at.value + |text|..] == s[at.value + 1 + |text|..];
      var r := Prepend(|text|, Scan(rest, s[at.value + 1 + |text|..]));
      if r.Some? {
        assert ([at.value] + r.value)[1..] == r.value;
      }
    }
  }

  /** Failing here is failing further along the line: a lazy item could have covered the distance. */
  lemma {:induction false} FailingIsFinal(items: seq<Item>, s: string, n: nat)
    requires items != [] && items[0].Lazy? && Match(items, s).None? && n <= |s| && AllDots(s[..n])
    ensures Match(items, s[n..]).None?
    decreases n
  {
    if n == 0 {
      assert s[0..] == s;
    } else {
      assert s[0] == s[..n][0];
      assert Match(items, s[1..]).None?;
      DotsOfSlice(s, 1, n);
      FailingIsFinal(items, s[1..], n - 1);
      assert s[1..][n - 1..] == s[n..];
    }
  }

  /** Past a first occurrence that leads nowhere, no later one does. */
  lemma {:induction false} LaterOccurrencesFail(text: string, rest: seq<Item>, s: string, from: string, n: nat)
    requires text != "" && AllDots(text) && rest != [] && rest[0].Lazy?
    requires |text| <= |from| && Match(rest, from[|text|..]).None?
    requires n <= |from| && s == from[n..] && AllDots(from[..n]) && (n == 0 ==> text <= s)
    ensures Try([Lit(text)] + rest, s).None?
    decreases |s|
  {
    var items := [Lit(text)] + rest;
    assert items[1..] == rest;
    if text <= s {
      assert AllDots(from[..n + |text|]) by {
        assert forall i :: n <= i < n + |text| ==> from[i] == s[i - n] == text[i - n];
        assert forall i :: 0 <= i < n ==> from[i] == from[..n][i];
      }
      SkipFails(rest, from, |text|, n + |text|);
      assert s[|text|..] == from[n + |text|..];
    }
    if s != "" && Dot(s[0]) {
      assert AllDots(from[..n + 1]) by {
        assert from[n] == s[0] && forall i :: 0 <= i < n ==> from[i] == from[..n][i];
      }
      assert s[1..] == from[n + 1..];
      LaterOccurrencesFail(text, rest, s[1..], from, n + 1);
    }
  }

  lemma SkipFails(rest: seq<Item>, from: string, a: nat, b: nat)
    requires a <= b <= |from| && rest != [] && rest[0].Lazy? && Match(rest, from[a..]).None? && AllDots(from[..b])
    ensures Match(rest, from[b..]).None?
  {
    DotsOfSlice(from, a, b);
    FailingIsFinal(rest, from[a..], b - a);
    assert from[a..][b - a..] == from[b..];
  }

  /** For alternating expressions the lazy, backtracking match is the plain scan. */
  lemma {:induction false} MatchIsScan(items: seq<Item>, s: string)
    requires Alternates(items)
    ensures Match(items, s) == Scan(items, s)
    decreases |items|, |s|
  {
    if items != [] {
      var text, rest := items[1].text, items[2..];
      assert items[1..] == [Lit(text)] + rest;
      TryIsScan(text, rest, s);
    }
  }

  lemma {:induction false} TryIsScan(text: string, rest: seq<Item>, s: string)
    requires text != "" && AllDots(text) && Alternates(rest)
    ensures Try([Lit(text)] + rest, s) == ScanLazy(text, rest, s)
    decreases |rest| + 1, |s|
  {
    var items := [Lit(text)] + rest;
    assert items[1..] == rest;
    if text <= s {
      MatchIsScan(rest, s[|text|..]);
      assert s == s[0..];
      if Match(rest, s[|text|..]).None? {
        LaterOccurrencesFail(text, rest, s, s, 0);
      }
    } else if s != "" && Dot(s[0]) {
      TryIsScan(text, rest, s[1..]);
      ScanLazyShifts(text, rest, s);
    }
  }
}
