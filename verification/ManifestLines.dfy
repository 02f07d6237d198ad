/** What the search loop records, on any manifest: carriage returns cut it into lines, and each line into entries. */
module ManifestLines {
  import opened LazyRegex
  import opened LineFeeds
  import opened ManifestEntries
  import opened Manifests
  import opened Options

  // ---------------------------------------------------------------- one line

  /** Where the leftmost match is. */
  lemma {:induction false} MatchPosition(s: string) returns (k: nat)
    requires Search(s).Some?
    ensures k <= |s| && MatchHere(s[k..]) == Search(s)
    ensures forall j :: 0 <= j < k ==> MatchHere(s[j..]) == None
    decreases |s|
  {
    k := 0;
    assert s[0..] == s;
    if MatchHere(s).None? {
      var l := MatchPosition(s[1..]);
      k := l + 1;
      assert s[k..] == s[1..][l..];
      forall j | 0 <= j < k ensures MatchHere(s[j..]) == None {
        if j > 0 {
          assert s[j..] == s[1..][j - 1..];
        }
      }
    }
  }

  lemma {:induction false} AvoidsIfNowhere(tag: string, s: string)
    requires forall j :: 0 <= j < |s| ==> !(tag <= s[j..])
    ensures Avoids(tag, s)
    decreases |s|
  {
    if s != "" {
      assert s[0..] == s;
      assert forall j :: 0 <= j < |s[1..]| ==> s[1..][j..] == s[j + 1..];
      AvoidsIfNowhere(tag, s[1..]);
    }
  }

  /** What comes before the first occurrence of a tag avoids it. */
  lemma {:induction false} BeforeFirstAvoids(tag: string, s: string)
    requires FirstAt(tag, s).Some?
    ensures FirstAt(tag, s).value <= |s| && Avoids(tag, s[..FirstAt(tag, s).value])
    decreases |s|
  {
    FirstAtIsThere(tag, s);
    if !(tag <= s) {
      BeforeFirstAvoids(tag, s[1..]);
      var k := FirstAt(tag, s[1..]).value;
      assert s[..k + 1][1..] == s[1..][..k];
      PrefixOfPrefix(tag, s, k + 1);
    }
  }

  lemma PrefixOfPrefix(tag: string, s: string, n: nat)
    requires n <= |s|
    ensures tag <= s[..n] ==> tag <= s
  {
  }

  lemma DotsOfParts(a: string, tag: string, b: string)
    requires AllDots(a + (tag + b))
    ensures AllDots(a) && AllDots(b)
  {
    var all := a + (tag + b);
    assert forall i :: 0 <= i < |a| ==> a[i] == all[i];
    assert forall i :: 0 <= i < |b| ==> b[i] == all[|a| + |tag| + i];
  }

  lemma BeforeAvoids(tag: string, s: string)
    requires UpTo(tag, s).Some?
    ensures Avoids(tag, UpTo(tag, s).value.before)
  {
    BeforeFirstAvoids(tag, s);
  }

  lemma SplitAvoids(tag: string, s: string)
    requires UpTo(tag, s).Some? && AllDots(s)
    ensures var p := UpTo(tag, s).value;
      && s == p.before + (tag + p.after) && Avoids(tag, p.before) && AllDots(p.before) && AllDots(p.after)
  {
    hide UpTo, Avoids, AllDots;
    var p := UpTo(tag, s).value;
    UpToSplits(tag, s);
    BeforeAvoids(tag, s);
    Regroup(p.before, tag, p.after);
    DotsOfParts(p.before, tag, p.after);
  }

  /** A match on one line is an entry. */
  lemma MatchIsEntry(s: string) returns (e: Entry)
    requires AllDots(s) && ScanHere(s).Some?
    ensures e.before == "" && Ended(e) && OneLine(e)
    ensures ScanHere(s).value == Found(e.name, e.version, ScanHere(s).value.suffix)
    ensures s == NAME_OPEN + BodyThen(e, ScanHere(s).value.suffix) && AllDots(ScanHere(s).value.suffix)
  {
    hide UpTo, Avoids, AllDots;
    var s1 := s[|NAME_OPEN|..];
    assert AllDots(s1) by {
      DotsBehind(s, |NAME_OPEN|);
    }
    SplitAvoids(NAME_CLOSE, s1);
    var name := UpTo(NAME_CLOSE, s1).value;
    SplitAvoids(VERSION_OPEN, name.after);
    var gap := UpTo(VERSION_OPEN, name.after).value;
    SplitAvoids(VERSION_CLOSE, gap.after);
    var version := UpTo(VERSION_CLOSE, gap.after).value;
    e := Entry("", name.before, gap.before, version.before);
    AvoidsNothing(NAME_OPEN);
    assert s == NAME_OPEN + s1;
  }

  lemma AvoidsNothing(tag: string)
    ensures Avoids(tag, "")
  {
  }

  lemma DotsBehind(s: string, n: nat)
    requires AllDots(s) && n <= |s|
    ensures AllDots(s[n..]) && AllDots(s[..n])
  {
  }

  /** On one line the leftmost match begins at the first opening name tag: what stops an earlier one would stop it
      too. */
  lemma NothingOpensBefore(s: string, k: nat)
    requires AllDots(s) && k <= |s| && MatchHere(s[k..]).Some?
    requires forall j :: 0 <= j < k ==> MatchHere(s[j..]) == None
    ensures Avoids(NAME_OPEN, s[..k])
  {
    forall j | 0 <= j < k ensures !(NAME_OPEN <= s[..k][j..]) {
      if NAME_OPEN <= s[..k][j..] {
        assert s[..k][j..] == s[j..][..k - j];
        PrefixOfPrefix(NAME_OPEN, s[j..], k - j);
        OpeningMatches(s, j, k);
      }
    }
    AvoidsIfNowhere(NAME_OPEN, s[..k]);
  }

  lemma OpeningMatches(s: string, j: nat, k: nat)
    requires AllDots(s) && j <= k <= |s| && MatchHere(s[k..]).Some? && NAME_OPEN <= s[j..]
    ensures MatchHere(s[j..]).Some?
  {
    hide Match, Scan;
    var n := |NAME_OPEN|;
    MatchAfterName(s[j..]);
    MatchAfterName(s[k..]);
    assert s[j..][n..] == s[j + n..] && s[k..][n..] == s[k + n..];
    TailsAlternate();
    if Match(FIND_VERSION[1..], s[j + n..]).None? {
      DotsBehind(s, j + n);
      DotsBehind(s[j + n..], k - j);
      assert s[j + n..][k - j..] == s[k + n..];
      FailingIsFinal(FIND_VERSION[1..], s[j + n..], k - j);
    }
  }

  /** Any text on one line is a sequence of clean entries and a rest without a match. */
  lemma {:induction false} EveryLineIsEntries(s: string) returns (es: seq<Entry>, tail: string)
    requires AllDots(s)
    ensures s == RenderAll(es, tail) && Search(tail) == None
    ensures forall i :: 0 <= i < |es| ==> Clean(es[i]) && OneLine(es[i])
    decreases |s|
  {
    hide MatchHere, ScanHere, BodyThen, Body, Avoids;
    if Search(s).None? {
      es, tail := [], s;
    } else {
      var k := MatchPosition(s);
      var f := Search(s).value;
      NothingOpensBefore(s, k);
      ScanIsExpression(s[k..]);
      DotsBehind(s, k);
      var e := MatchIsEntry(s[k..]);
      var first := Entry(s[..k], e.name, e.gap, e.version);
      SearchShrinks(s);
      var rest, t := EveryLineIsEntries(f.suffix);
      es, tail := [first] + rest, t;
      SameBody(e, first, f.suffix);
      BodyThenIsBody(first, f.suffix);
      assert es[1..] == rest && s == s[..k] + s[k..];
    }
  }

  lemma SameBody(e: Entry, f: Entry, rest: string)
    requires e.name == f.name && e.gap == f.gap && e.version == f.version
    ensures BodyThen(e, rest) == BodyThen(f, rest)
  {
  }

  // ---------------------------------------------------------------- line by line

  /** What follows the end of a line. */
  function Behind(rest: string): string {
    "\r" + rest
  }

  /** A tag does not run over the end of a line. */
  lemma NoTagOverReturn(tag: string, s: string, rest: string)
    requires tag != "" && AllDots(tag)
    ensures tag <= s + Behind(rest) <==> tag <= s
  {
    PrefixOfConcat(tag, s, Behind(rest));
    assert |s| < |tag| ==> Dot(tag[|s|]);
    if tag <= s {
      assert forall i :: 0 <= i < |tag| ==> (s + Behind(rest))[i] == s[i];
    }
  }

  lemma {:induction false} FirstAtStaysOnLine(tag: string, s: string, rest: string)
    requires tag != "" && AllDots(tag) && AllDots(s)
    ensures FirstAt(tag, s + Behind(rest)) == FirstAt(tag, s)
    decreases |s|
  {
    var all := s + Behind(rest);
    NoTagOverReturn(tag, s, rest);
    if s == "" {
      assert all[0] == '\r';
    } else {
      assert all[0] == s[0] && all[1..] == s[1..] + Behind(rest);
      DotsBehind(s, 1);
      FirstAtStaysOnLine(tag, s[1..], rest);
    }
  }

  lemma UpToStaysOnLine(tag: string, s: string, rest: string)
    requires tag != "" && AllDots(tag) && AllDots(s)
    ensures UpTo(tag, s + Behind(rest)) ==
      if UpTo(tag, s).None? then None
      else Some(Split(UpTo(tag, s).value.before, UpTo(tag, s).value.after + Behind(rest)))
  {
    hide AllDots;
    FirstAtStaysOnLine(tag, s, rest);
    if UpTo(tag, s).Some? {
      FirstAtIsThere(tag, s);
      var k := FirstAt(tag, s).value;
      assert (s + Behind(rest))[..k] == s[..k];
      assert (s + Behind(rest))[k + |tag|..] == s[k + |tag|..] + Behind(rest);
    }
  }

  /** A result with more behind the suffix. */
  function Extended(f: Option<Found>, rest: string): Option<Found> {
    if f.None? then None else Some(f.value.(suffix := f.value.suffix + Behind(rest)))
  }

  lemma TagsAreOnOneLine()
    ensures AllDots(NAME_OPEN) && AllDots(NAME_CLOSE) && AllDots(VERSION_OPEN) && AllDots(VERSION_CLOSE)
  {
  }

  lemma AfterSplitIsOneLine(tag: string, s: string)
    requires AllDots(s) && UpTo(tag, s).Some?
    ensures AllDots(UpTo(tag, s).value.after)
  {
    SplitAvoids(tag, s);
  }

  lemma ScanStaysOnLine(s: string, rest: string)
    requires AllDots(s)
    ensures ScanHere(s + Behind(rest)) == Extended(ScanHere(s), rest)
  {
    hide UpTo, AllDots, Behind;
    TagsAreOnOneLine();
    NoTagOverReturn(NAME_OPEN, s, rest);
    if NAME_OPEN <= s {
      var s1 := s[|NAME_OPEN|..];
      assert (s + Behind(rest))[|NAME_OPEN|..] == s1 + Behind(rest);
      DotsBehind(s, |NAME_OPEN|);
      UpToStaysOnLine(NAME_CLOSE, s1, rest);
      var name := UpTo(NAME_CLOSE, s1);
      if name.Some? {
        AfterSplitIsOneLine(NAME_CLOSE, s1);
        UpToStaysOnLine(VERSION_OPEN, name.value.after, rest);
        var gap := UpTo(VERSION_OPEN, name.value.after);
        if gap.Some? {
          AfterSplitIsOneLine(VERSION_OPEN, name.value.after);
          UpToStaysOnLine(VERSION_CLOSE, gap.value.after, rest);
        }
      }
    }
  }

  /** A search finds what it would on the line alone, else it goes on with the next. */
  lemma {:induction false} SearchGoesByLine(s: string, rest: string)
    requires AllDots(s)
    ensures Search(s + Behind(rest)) == if Search(s).Some? then Extended(Search(s), rest) else Search(rest)
    decreases |s|
  {
    hide AllDots, ScanHere, MatchHere;
    var all := s + Behind(rest);
    ScanIsExpression(all);
    ScanIsExpression(s);
    ScanStaysOnLine(s, rest);
    if s == "" {
      assert all[1..] == rest;
      NothingInNothing();
    } else {
      assert all[1..] == s[1..] + Behind(rest);
      DotsBehind(s, 1);
      SearchGoesByLine(s[1..], rest);
    }
  }

  lemma NothingInNothing()
    ensures ScanHere("") == None
  {
  }

  lemma {:induction false} SuffixIsOneLine(s: string)
    requires AllDots(s) && Search(s).Some?
    ensures AllDots(Search(s).value.suffix)
    decreases |s|
  {
    hide AllDots;
    if MatchHere(s).Some? {
      ScanIsExpression(s);
      var _ := MatchIsEntry(s);
    } else {
      DotsBehind(s, 1);
      SuffixIsOneLine(s[1..]);
    }
  }

  /** The loop goes through the lines one by one. */
  lemma {:induction false} ExtractGoesByLine(s: string, rest: string, out: map<string, string>)
    requires AllDots(s)
    ensures ExtractFrom(s + Behind(rest), out) == ExtractFrom(rest, ExtractFrom(s, out))
    decreases |s|
  {
    hide AllDots, Search, Store;
    SearchGoesByLine(s, rest);
    if Search(s).Some? {
      var f := Search(s).value;
      SuffixIsOneLine(s);
      SearchShrinks(s);
      ExtractGoesByLine(f.suffix, rest, Store(out, f));
      assert ExtractFrom(s + Behind(rest), out) == ExtractFrom(f.suffix + Behind(rest), Store(out, f)) by {
        SameStore(out, f, f.suffix + Behind(rest));
      }
    } else {
      SameSearchSameMap(s + Behind(rest), rest, out);
      assert ExtractFrom(s, out) == out;
    }
  }

  lemma SameStore(out: map<string, string>, f: Found, suffix: string)
    ensures Store(out, f.(suffix := suffix)) == Store(out, f)
  {
  }

  /** The text up to the first carriage return. */
  function FirstLine(s: string): (line: string)
    ensures |line| <= |s| && line == s[..|line|] && forall i :: 0 <= i < |line| ==> line[i] != '\r'
    ensures |line| < |s| ==> s[|line|] == '\r'
  {
    if s == "" || s[0] == '\r' then "" else [s[0]] + FirstLine(s[1..])
  }

  /** The lines of a text, carriage returns separating them. */
  function Lines(s: string): (lines: seq<string>)
    ensures lines != []
    decreases |s|
  {
    var line := FirstLine(s);
    if |line| == |s| then [line] else [line] + Lines(s[|line| + 1..])
  }

  function Joined(ess: seq<seq<Entry>>): seq<Entry> {
    if ess == [] then [] else ess[0] + Joined(ess[1..])
  }

  /** A line is made of clean entries, all on it, and a rest without a match. */
  ghost predicate IsMadeOf(line: string, es: seq<Entry>, tail: string) {
    && line == RenderAll(es, tail) && Search(tail) == None
    && forall i :: 0 <= i < |es| ==> Clean(es[i]) && OneLine(es[i])
  }

  ghost predicate AreMadeOf(lines: seq<string>, ess: seq<seq<Entry>>, tails: seq<string>) {
    |ess| == |lines| == |tails| && forall i :: 0 <= i < |lines| ==> IsMadeOf(lines[i], ess[i], tails[i])
  }

  lemma {:induction false} RecordConcat(a: seq<Entry>, b: seq<Entry>, out: map<string, string>)
    ensures Record(a + b, out) == Record(b, Record(a, out))
    decreases |a|
  {
    if a == [] {
      assert a + b == b;
    } else {
      assert (a + b)[1..] == a[1..] + b;
      RecordConcat(a[1..], b, if OneLine(a[0]) && a[0].name != "" then out[a[0].name := a[0].version] else out);
    }
  }

  /** Any line can be made of entries. */
  lemma {:induction false} LinesAreMadeOfEntries(s: string) returns (ess: seq<seq<Entry>>, tails: seq<string>)
    requires forall i :: 0 <= i < |s| ==> s[i] != '\n'
    ensures AreMadeOf(Lines(s), ess, tails)
    decreases |s|
  {
    hide Clean, OneLine, Search;
    var line := FirstLine(s);
    assert AllDots(line);
    var es, tail := EveryLineIsEntries(line);
    if |line| == |s| {
      ess, tails := [es], [tail];
    } else {
      var more, otherTails := LinesAreMadeOfEntries(s[|line| + 1..]);
      ess, tails := [es] + more, [tail] + otherTails;
    }
  }

  lemma LineRecords(line: string, es: seq<Entry>, tail: string, out: map<string, string>)
    requires IsMadeOf(line, es, tail)
    ensures ExtractFrom(line, out) == Record(es, out)
  {
    hide Clean, OneLine;
    ExtractRecords(es, tail, out);
  }

  /** However the lines are made of entries, the loop records these. */
  lemma {:induction false} LinesRecord(s: string, ess: seq<seq<Entry>>, tails: seq<string>, out: map<string, string>)
    requires AreMadeOf(Lines(s), ess, tails) && forall i :: 0 <= i < |s| ==> s[i] != '\n'
    ensures ExtractFrom(s, out) == Record(Joined(ess), out)
    decreases |s|
  {
    hide IsMadeOf, ExtractFrom, Record;
    var line := FirstLine(s);
    assert AllDots(line);
    assert IsMadeOf(Lines(s)[0], ess[0], tails[0]);
    LineRecords(line, ess[0], tails[0], out);
    if |line| == |s| {
      assert ess[1..] == [] && ess[0] + [] == ess[0] && line == s;
    } else {
      var rest := s[|line| + 1..];
      assert s == line + Behind(rest);
      ExtractGoesByLine(line, rest, out);
      assert Lines(rest) == Lines(s)[1..];
      LinesRecord(rest, ess[1..], tails[1..], Record(ess[0], out));
      RecordConcat(ess[0], Joined(ess[1..]), out);
    }
  }

  /** For every manifest, and however its lines are made of entries, line feeds aside: the map holds exactly the names
      of the entries of all the lines, the empty one aside, each with the version of its last entry. */
  lemma ManifestHoldsLastVersionsOfLines(manifestContent: string, ess: seq<seq<Entry>>, tails: seq<string>, n: string)
    requires AreMadeOf(Lines(StripNewlines(manifestContent)), ess, tails)
    ensures n in ExtractVersions(manifestContent) <==> LastVersion(Joined(ess), n).Some?
    ensures n in ExtractVersions(manifestContent) ==>
      ExtractVersions(manifestContent)[n] == LastVersion(Joined(ess), n).value
  {
    hide AreMadeOf, LastVersion, StripNewlines, Lines, Joined, Record;
    StrippedHasNoNewline(manifestContent);
    LinesRecord(StripNewlines(manifestContent), ess, tails, map[]);
    RecordKeepsLast(Joined(ess), map[], n);
  }

  /** And they can always be made of entries. */
  lemma EveryManifestIsEntries(manifestContent: string) returns (ess: seq<seq<Entry>>, tails: seq<string>)
    ensures AreMadeOf(Lines(StripNewlines(manifestContent)), ess, tails)
  {
    StrippedHasNoNewline(manifestContent);
    ess, tails := LinesAreMadeOfEntries(StripNewlines(manifestContent));
  }

  lemma OneLineOnly(s: string)
    requires forall i :: 0 <= i < |s| ==> s[i] != '\r'
    ensures Lines(s) == [s]
  {
    var line := FirstLine(s);
    assert |line| == |s| && s[..|s|] == s;
  }

  /** A manifest without a carriage return is one line. */
  lemma ManifestWithoutReturnsHoldsLastVersions(manifestContent: string) returns (es: seq<Entry>, tail: string)
    requires forall i :: 0 <= i < |manifestContent| ==> manifestContent[i] != '\r'
    ensures StripNewlines(manifestContent) == RenderAll(es, tail) && Search(tail) == None
    ensures forall i :: 0 <= i < |es| ==> Clean(es[i]) && OneLine(es[i])
    ensures forall n :: n in ExtractVersions(manifestContent) <==> LastVersion(es, n).Some?
    ensures forall n :: n in ExtractVersions(manifestContent) ==>
      ExtractVersions(manifestContent)[n] == LastVersion(es, n).value
  {
    hide Clean, OneLine, RenderAll, LastVersion, ExtractVersions, Search, StripNewlines, Lines;
    StrippedKeepsNoReturn(manifestContent);
    OneLineOnly(StripNewlines(manifestContent));
    var ess, tails := EveryManifestIsEntries(manifestContent);
    es, tail := ess[0], tails[0];
    assert IsMadeOf(StripNewlines(manifestContent), es, tail);
    assert ess == [es];
    JoinedOne(es);
    forall n ensures n in ExtractVersions(manifestContent) <==> LastVersion(es, n).Some? {
      ManifestHoldsLastVersionsOfLines(manifestContent, ess, tails, n);
    }
    forall n | n in ExtractVersions(manifestContent)
      ensures ExtractVersions(manifestContent)[n] == LastVersion(es, n).value
    {
      ManifestHoldsLastVersionsOfLines(manifestContent, ess, tails, n);
    }
  }

  lemma JoinedOne(es: seq<Entry>)
    ensures Joined([es]) == es
  {
    assert [es][1..] == [] && es + [] == es;
  }
}
