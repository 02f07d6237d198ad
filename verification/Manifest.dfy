/** Reading component versions out of an installer manifest (`_extractVersionsFromManifest`). */
module Manifests {
  import opened LazyRegex
  import opened Options

  const NAME_OPEN := "<Name>"
  const NAME_CLOSE := "</Name>"
  const VERSION_OPEN := "<Version>"
  const VERSION_CLOSE := "</Version>"

  /** `<Name>(.*?)<\/Name>.*?<Version>(.*?)<\/Version>` */
  const FIND_VERSION: seq<Item> :=
    [Lit(NAME_OPEN), Lazy, Lit(NAME_CLOSE), Lazy, Lit(VERSION_OPEN), Lazy, Lit(VERSION_CLOSE)]

  /** A search result: the two groups and the suffix. */
  datatype Found = Found(name: string, version: string, suffix: string)

  /** One match of the expression at the start of `s`, groups cut out. */
  function MatchHere(s: string): Option<Found> {
    var m := Match(FIND_VERSION, s);
    if m.None? then None
    else
      MatchIsMatch(FIND_VERSION, s);
      MatchFits(FIND_VERSION, s, m.value);
      Some(Found(Group(s, m.value, 1), Group(s, m.value, 5), After(s, m.value, 7)))
  }

  predicate Fits(s: string, takes: seq<nat>) {
    takes == [] || (takes[0] <= |s| && Fits(s[takes[0]..], takes[1..]))
  }

  /** What is left after the first `n` items have taken their part. */
  function After(s: string, takes: seq<nat>, n: nat): string
    requires Fits(s, takes) && n <= |takes|
    decreases n
  {
    if n == 0 then s else After(s[takes[0]..], takes[1..], n - 1)
  }

  /** The part of item `n`. */
  function Group(s: string, takes: seq<nat>, n: nat): string
    requires Fits(s, takes) && n < |takes|
    decreases n
  {
    if n == 0 then s[..takes[0]] else Group(s[takes[0]..], takes[1..], n - 1)
  }

  lemma {:induction false} MatchFits(items: seq<Item>, s: string, takes: seq<nat>)
    requires IsMatch(items, s, takes)
    ensures Fits(s, takes) && |takes| == |items|
    decreases |items|
  {
    if items != [] {
      MatchFits(items[1..], s[takes[0]..], takes[1..]);
    }
  }

  // ---------------------------------------------------------------- the scan

  /** The same by scanning: the tags in order, each at its first occurrence on the line. */
  function ScanHere(s: string): Option<Found> {
    if !(NAME_OPEN <= s) then None
    else
      var s1 := s[|NAME_OPEN|..];
      var name := UpTo(NAME_CLOSE, s1);
      if name.None? then None
      else
        var gap := UpTo(VERSION_OPEN, name.value.after);
        if gap.None? then None
        else
          var version := UpTo(VERSION_CLOSE, gap.value.after);
          if version.None? then None
          else Some(Found(name.value.before, version.value.before, version.value.after))
  }

  datatype Split = Split(before: string, after: string)

  function UpTo(tag: string, s: string): Option<Split> {
    var at := FirstAt(tag, s);
    if at.None? then None
    else
      FirstAtIsThere(tag, s);
      Some(Split(s[..at.value], s[at.value + |tag|..]))
  }

  lemma UpToSplits(tag: string, s: string)
    requires UpTo(tag, s).Some?
    ensures UpTo(tag, s).value.before + tag + UpTo(tag, s).value.after == s
  {
    FirstAtIsThere(tag, s);
    var k := FirstAt(tag, s).value;
    assert s[k..][..|tag|] == tag;
  }

  /** The expression from its n-th item on alternates. */
  lemma TailsAlternate()
    ensures Alternates(FIND_VERSION[1..]) && Alternates(FIND_VERSION[3..]) && Alternates(FIND_VERSION[5..])
    ensures FIND_VERSION[1..][2..] == FIND_VERSION[3..] && FIND_VERSION[3..][2..] == FIND_VERSION[5..]
    ensures FIND_VERSION[5..][2..] == []
  {
    assert AllDots(NAME_CLOSE) && AllDots(VERSION_OPEN) && AllDots(VERSION_CLOSE);
    assert Alternates(FIND_VERSION[5..][2..]);
    assert FIND_VERSION[5..][0].Lazy? && FIND_VERSION[5..][1] == Lit(VERSION_CLOSE);
    assert Alternates(FIND_VERSION[5..]);
    assert FIND_VERSION[3..][0].Lazy? && FIND_VERSION[3..][1] == Lit(VERSION_OPEN);
    assert FIND_VERSION[3..][2..] == FIND_VERSION[5..];
    assert Alternates(FIND_VERSION[3..]);
    assert FIND_VERSION[1..][0].Lazy? && FIND_VERSION[1..][1] == Lit(NAME_CLOSE);
    assert FIND_VERSION[1..][2..] == FIND_VERSION[3..];
  }

  /** The cut of a list of lengths, one item at a time. */
  lemma Peel(s: string, k: nat, takes: seq<nat>)
    requires k <= |s| && Fits(s[k..], takes)
    ensures Fits(s, [k] + takes)
    ensures Group(s, [k] + takes, 0) == s[..k]
    ensures forall n :: 0 <= n < |takes| ==> Group(s, [k] + takes, n + 1) == Group(s[k..], takes, n)
    ensures forall n :: 0 <= n <= |takes| ==> After(s, [k] + takes, n + 1) == After(s[k..], takes, n)
  {
    assert ([k] + takes)[1..] == takes;
  }

  /** Two items of the scan: a lazy one up to its tag, then the tag. */
  lemma PeelTwo(s: string, tag: string, takes: seq<nat>)
    requires UpTo(tag, s).Some? && Fits(UpTo(tag, s).value.after, takes)
    ensures var k := FirstAt(tag, s).value; var all := [k] + ([|tag|] + takes);
      && Fits(s, all) && Group(s, all, 0) == UpTo(tag, s).value.before
      && (forall n :: 0 <= n < |takes| ==> Group(s, all, n + 2) == Group(UpTo(tag, s).value.after, takes, n))
      && (forall n :: 0 <= n <= |takes| ==> After(s, all, n + 2) == After(UpTo(tag, s).value.after, takes, n))
  {
    FirstAtIsThere(tag, s);
    var k, after := FirstAt(tag, s).value, UpTo(tag, s).value.after;
    var rest := [|tag|] + takes;
    var all := [k] + rest;
    assert s[k..][|tag|..] == after;
    Peel(s[k..], |tag|, takes);
    Peel(s, k, rest);
    forall n | 0 <= n < |takes| ensures Group(s, all, n + 2) == Group(after, takes, n) {
      assert Group(s, all, (n + 1) + 1) == Group(s[k..], rest, n + 1);
    }
    forall n | 0 <= n <= |takes| ensures After(s, all, n + 2) == After(after, takes, n) {
      assert After(s, all, (n + 1) + 1) == After(s[k..], rest, n + 1);
    }
  }

  /** What the scan from item 5, 3 and 1 on returns. */
  lemma ScanFromVersion(s: string)
    ensures Alternates(FIND_VERSION[5..])
    ensures Scan(FIND_VERSION[5..], s) ==
      if UpTo(VERSION_CLOSE, s).None? then None else Some([FirstAt(VERSION_CLOSE, s).value] + ([|VERSION_CLOSE|] + []))
  {
    TailsAlternate();
    assert FIND_VERSION[5..][1].text == VERSION_CLOSE;
    var at := FirstAt(VERSION_CLOSE, s);
    if at.Some? {
      FirstAtIsThere(VERSION_CLOSE, s);
      assert Scan(FIND_VERSION[5..][2..], s[at.value + |VERSION_CLOSE|..]) == Some([]);
    }
  }

  lemma ScanFromGap(s: string)
    ensures Alternates(FIND_VERSION[3..]) && Alternates(FIND_VERSION[5..])
    ensures Scan(FIND_VERSION[3..], s) ==
      if UpTo(VERSION_OPEN, s).None? then None
      else Prepend(FirstAt(VERSION_OPEN, s).value,
                   Prepend(|VERSION_OPEN|, Scan(FIND_VERSION[5..], UpTo(VERSION_OPEN, s).value.after)))
  {
    TailsAlternate();
    assert FIND_VERSION[3..][1].text == VERSION_OPEN;
  }

  lemma ScanFromName(s: string)
    ensures Alternates(FIND_VERSION[1..]) && Alternates(FIND_VERSION[3..])
    ensures Scan(FIND_VERSION[1..], s) ==
      if UpTo(NAME_CLOSE, s).None? then None
      else Prepend(FirstAt(NAME_CLOSE, s).value,
                   Prepend(|NAME_CLOSE|, Scan(FIND_VERSION[3..], UpTo(NAME_CLOSE, s).value.after)))
  {
    TailsAlternate();
    assert FIND_VERSION[1..][1].text == NAME_CLOSE;
  }

  lemma MatchAfterName(s: string)
    ensures Match(FIND_VERSION, s) ==
      if NAME_OPEN <= s then Prepend(|NAME_OPEN|, Match(FIND_VERSION[1..], s[|NAME_OPEN|..])) else None
    ensures NAME_OPEN <= s ==>
      Alternates(FIND_VERSION[1..]) && Match(FIND_VERSION[1..], s[|NAME_OPEN|..]) ==
        Scan(FIND_VERSION[1..], s[|NAME_OPEN|..])
  {
    if NAME_OPEN <= s {
      TailsAlternate();
      MatchIsScan(FIND_VERSION[1..], s[|NAME_OPEN|..]);
    }
  }

  /** The lengths the scan finds, item by item. */
  function Takes(s: string): seq<nat>
    requires ScanHere(s).Some?
  {
    var s1 := s[|NAME_OPEN|..];
    var s2 := UpTo(NAME_CLOSE, s1).value.after;
    var s3 := UpTo(VERSION_OPEN, s2).value.after;
    [|NAME_OPEN|] + ([FirstAt(NAME_CLOSE, s1).value] + ([|NAME_CLOSE|] +
      ([FirstAt(VERSION_OPEN, s2).value] + ([|VERSION_OPEN|] +
        ([FirstAt(VERSION_CLOSE, s3).value] + ([|VERSION_CLOSE|] + []))))))
  }

  lemma GroupsAgree(s: string)
    requires ScanHere(s).Some?
    ensures var f := ScanHere(s).value; var takes := Takes(s);
      |takes| == 7 && Fits(s, takes) && Group(s, takes, 1) == f.name && Group(s, takes, 5) == f.version &&
        After(s, takes, 7) == f.suffix
  {
    hide FirstAt, Group, After, Fits;
    var s1 := s[|NAME_OPEN|..];
    var s2 := UpTo(NAME_CLOSE, s1).value.after;
    var s3 := UpTo(VERSION_OPEN, s2).value.after;
    var s4 := UpTo(VERSION_CLOSE, s3).value.after;
    var t3 := [FirstAt(VERSION_CLOSE, s3).value] + ([|VERSION_CLOSE|] + []);
    var t2 := [FirstAt(VERSION_OPEN, s2).value] + ([|VERSION_OPEN|] + t3);
    var t1 := [FirstAt(NAME_CLOSE, s1).value] + ([|NAME_CLOSE|] + t2);
    NothingFits(s4);
    PeelTwo(s3, VERSION_CLOSE, []);
    PeelTwo(s2, VERSION_OPEN, t3);
    PeelTwo(s1, NAME_CLOSE, t2);
    Peel(s, |NAME_OPEN|, t1);
    assert Group(s, Takes(s), 0 + 1) == Group(s1, t1, 0);
    assert Group(s, Takes(s), 4 + 1) == Group(s1, t1, 2 + 2) == Group(s2, t2, 0 + 2) == Group(s3, t3, 0);
    assert After(s, Takes(s), 6 + 1) == After(s1, t1, 4 + 2) == After(s2, t2, 2 + 2) == After(s3, t3, 0 + 2) ==
      After(s4, [], 0);
  }

  lemma NothingFits(s: string)
    ensures Fits(s, []) && After(s, [], 0) == s
  {
  }

  /** The expression matches where the scan succeeds, and cuts out the same groups. */
  lemma ScanIsExpression(s: string)
    ensures MatchHere(s) == ScanHere(s)
  {
    hide Match, Scan, Try, Alternates, FirstAt;
    MatchAfterName(s);
    if NAME_OPEN <= s {
      var s1 := s[|NAME_OPEN|..];
      ScanFromName(s1);
      var name := UpTo(NAME_CLOSE, s1);
      if name.Some? {
        ScanFromGap(name.value.after);
        var gap := UpTo(VERSION_OPEN, name.value.after);
        if gap.Some? {
          ScanFromVersion(gap.value.after);
          if UpTo(VERSION_CLOSE, gap.value.after).Some? {
            GroupsAgree(s);
          }
        }
      }
    }
  }
}
