/** What the search loop records, on manifests made of component entries. */
module ManifestEntries {
  import opened LazyRegex
  import opened LineFeeds
  import opened Manifests
  import opened Options

  // ---------------------------------------------------------------- the search loop

  /** `std::regex_search`: the leftmost position where the expression matches. */
  function Search(s: string): Option<Found> {
    var here := MatchHere(s);
    if here.Some? || s == "" then here else Search(s[1..])
  }

  lemma {:induction false} SearchShrinks(s: string)
    requires Search(s).Some?
    ensures |Search(s).value.suffix| < |s|
  {
    ScanIsExpression(s);
    if MatchHere(s).Some? {
      ScanShrinks(s);
    } else if s != "" {
      SearchShrinks(s[1..]);
    }
  }

  lemma ScanShrinks(s: string)
    requires ScanHere(s).Some?
    ensures |ScanHere(s).value.suffix| < |s|
  {
    hide FirstAt;
    var s1 := s[|NAME_OPEN|..];
    UpToSplits(NAME_CLOSE, s1);
    var s2 := UpTo(NAME_CLOSE, s1).value.after;
    UpToSplits(VERSION_OPEN, s2);
    UpToSplits(VERSION_CLOSE, UpTo(VERSION_OPEN, s2).value.after);
  }

  /** The group loop: an empty name leaves `key` empty, so the version goes there and nothing is stored. */
  function Store(out: map<string, string>, f: Found): map<string, string> {
    if f.name == "" then out else out[f.name := f.version]
  }

  function ExtractFrom(s: string, out: map<string, string>): map<string, string>
    decreases |s|
  {
    var f := Search(s);
    if f.None? then out
    else
      SearchShrinks(s);
      ExtractFrom(f.value.suffix, Store(out, f.value))
  }

  function ExtractVersions(manifestContent: string): map<string, string> {
    ExtractFrom(StripNewlines(manifestContent), map[])
  }

  // ---------------------------------------------------------------- entries

  /** One component entry, with what comes before it. */
  datatype Entry = Entry(before: string, name: string, gap: string, version: string)

  function Body(e: Entry): string {
    e.name + (NAME_CLOSE + (e.gap + (VERSION_OPEN + (e.version + VERSION_CLOSE))))
  }

  function Render(e: Entry): string {
    e.before + (NAME_OPEN + Body(e))
  }

  function RenderAll(es: seq<Entry>, tail: string): string {
    if es == [] then tail else Render(es[0]) + RenderAll(es[1..], tail)
  }

  /** `tag` does not occur in `s`. */
  predicate Avoids(tag: string, s: string) {
    s == "" || (!(tag <= s) && Avoids(tag, s[1..]))
  }

  /** No text of the entry contains the tag that ends it. */
  predicate Ended(e: Entry) {
    && Avoids(NAME_OPEN, e.before)
    && Avoids(NAME_CLOSE, e.name) && Avoids(VERSION_OPEN, e.gap) && Avoids(VERSION_CLOSE, e.version)
  }

  /** Name, version and what separates them are on one line. */
  predicate OneLine(e: Entry) {
    AllDots(e.name) && AllDots(e.gap) && AllDots(e.version)
  }

  /** An entry that is not on one line may not contain another opening name tag either. One that is may: an entry
      without a version runs on to the version of the next one. */
  predicate Clean(e: Entry) {
    Ended(e) && (OneLine(e) || (Avoids(NAME_OPEN, e.name) && Avoids(NAME_OPEN, e.gap) && Avoids(NAME_OPEN, e.version)))
  }

  /** Later entries overwrite earlier ones. */
  function Record(es: seq<Entry>, out: map<string, string>): map<string, string> {
    if es == [] then out
    else Record(es[1..], if OneLine(es[0]) && es[0].name != "" then out[es[0].name := es[0].version] else out)
  }

  // ---------------------------------------------------------------- occurrences

  /** A tag: `<` first and nowhere else. */
  predicate TagLike(tag: string) {
    tag != "" && tag[0] == '<' && forall i :: 0 < i < |tag| ==> tag[i] != '<'
  }

  /** What follows text in a manifest: nothing, or a tag. */
  predicate AtTag(rest: string) {
    rest == "" || rest[0] == '<'
  }

  lemma PrefixOfConcat(tag: string, s: string, rest: string)
    ensures tag <= s + rest ==> tag <= s || (|s| < |tag| && rest != "" && tag[|s|] == rest[0])
  {
    assert tag <= s + rest ==> forall i :: 0 <= i < |tag| ==> tag[i] == (s + rest)[i];
  }

  /** A tag cannot begin in a text that avoids it and run over into the tag behind. */
  lemma NoStraddle(tag: string, s: string, rest: string)
    requires TagLike(tag) && s != "" && Avoids(tag, s) && AtTag(rest)
    ensures !(tag <= s + rest)
  {
    PrefixOfConcat(tag, s, rest);
  }

  /** The first occurrence of a tag behind a text that avoids it: right there, if the text stays on its line. */
  lemma {:induction false} FirstAfterText(tag: string, s: string, rest: string)
    requires TagLike(tag) && Avoids(tag, s)
    ensures FirstAt(tag, s + (tag + rest)) == if AllDots(s) then Some(|s|) else None
    decreases |s|
  {
    var all := s + (tag + rest);
    if s == "" {
      assert all == tag + rest && tag <= all;
    } else {
      NoStraddle(tag, s, tag + rest);
      assert all[1..] == s[1..] + (tag + rest);
      FirstAfterText(tag, s[1..], rest);
      assert AllDots(s) <==> Dot(s[0]) && AllDots(s[1..]) by {
        assert forall i :: 0 < i < |s| ==> s[1..][i - 1] == s[i];
      }
    }
  }

  lemma UpToAfterText(tag: string, s: string, rest: string)
    requires TagLike(tag) && Avoids(tag, s)
    ensures UpTo(tag, s + (tag + rest)) == if AllDots(s) then Some(Split(s, rest)) else None
  {
    hide FirstAt, TagLike, Avoids, AllDots;
    FirstAfterText(tag, s, rest);
    var all := s + (tag + rest);
    assert all[..|s|] == s && all[|s| + |tag|..] == rest;
  }

  lemma TagsAreTagLike()
    ensures TagLike(NAME_OPEN) && TagLike(NAME_CLOSE) && TagLike(VERSION_OPEN) && TagLike(VERSION_CLOSE)
  {
  }

  // ---------------------------------------------------------------- skipping

  /** The opening name tag begins nowhere in `s`, seen with `rest` behind it. */
  predicate NoStart(s: string, rest: string) {
    s == "" || (!(NAME_OPEN <= s + rest) && NoStart(s[1..], rest))
  }

  lemma {:induction false} NoStartCompose(a: string, b: string, rest: string)
    requires NoStart(a, b + rest) && NoStart(b, rest)
    ensures NoStart(a + b, rest)
    decreases |a|
  {
    if a == "" {
      assert a + b == b;
    } else {
      assert (a + b)[1..] == a[1..] + b && (a + b) + rest == a + (b + rest);
      NoStartCompose(a[1..], b, rest);
    }
  }

  lemma {:induction false} TextHasNoStart(s: string, rest: string)
    requires Avoids(NAME_OPEN, s) && AtTag(rest)
    ensures NoStart(s, rest)
    decreases |s|
  {
    if s != "" {
      TagsAreTagLike();
      NoStraddle(NAME_OPEN, s, rest);
      TextHasNoStart(s[1..], rest);
    }
  }

  lemma {:induction false} PlainHasNoStart(s: string, rest: string)
    requires forall i :: 0 <= i < |s| ==> s[i] != '<'
    ensures NoStart(s, rest)
    decreases |s|
  {
    if s != "" {
      assert (s + rest)[0] == s[0] != NAME_OPEN[0];
      PlainHasNoStart(s[1..], rest);
    }
  }

  /** Neither in another tag. */
  lemma OtherTagHasNoStart(tag: string, rest: string)
    requires TagLike(tag) && |tag| > 1 && tag[1] != NAME_OPEN[1]
    ensures NoStart(tag, rest)
  {
    assert (tag + rest)[1] == tag[1];
    PlainHasNoStart(tag[1..], rest);
  }

  lemma {:induction false} SearchSkips(s: string, rest: string)
    requires NoStart(s, rest)
    ensures Search(s + rest) == Search(rest)
    decreases |s|
  {
    if s == "" {
      assert s + rest == rest;
    } else {
      ScanIsExpression(s + rest);
      assert (s + rest)[1..] == s[1..] + rest;
      SearchSkips(s[1..], rest);
    }
  }

  // ---------------------------------------------------------------- one entry

  /** The body of an entry with `rest` behind it, associated for scanning. */
  function BodyThen(e: Entry, rest: string): string {
    e.name + (NAME_CLOSE + (e.gap + (VERSION_OPEN + (e.version + (VERSION_CLOSE + rest)))))
  }

  lemma BodyThenIsBody(e: Entry, rest: string)
    ensures BodyThen(e, rest) == Body(e) + rest
    ensures Render(e) + rest == e.before + (NAME_OPEN + BodyThen(e, rest))
  {
    var v, g := e.version + VERSION_CLOSE, VERSION_OPEN + (e.version + VERSION_CLOSE);
    assert e.version + (VERSION_CLOSE + rest) == v + rest;
    assert VERSION_OPEN + (v + rest) == g + rest;
    assert e.gap + (g + rest) == (e.gap + g) + rest;
    assert NAME_CLOSE + ((e.gap + g) + rest) == (NAME_CLOSE + (e.gap + g)) + rest;
    assert BodyThen(e, rest) == Body(e) + rest;
    assert NAME_OPEN + (Body(e) + rest) == (NAME_OPEN + Body(e)) + rest;
  }

  lemma EntryScans(e: Entry, rest: string)
    requires Ended(e)
    ensures ScanHere(NAME_OPEN + BodyThen(e, rest)) ==
      if OneLine(e) then Some(Found(e.name, e.version, rest)) else None
  {
    hide UpTo, Avoids, FirstAt, AllDots;
    TagsAreTagLike();
    var after3 := VERSION_CLOSE + rest;
    var after2 := e.gap + (VERSION_OPEN + (e.version + after3));
    assert (NAME_OPEN + BodyThen(e, rest))[|NAME_OPEN|..] == BodyThen(e, rest);
    UpToAfterText(NAME_CLOSE, e.name, after2);
    UpToAfterText(VERSION_OPEN, e.gap, e.version + after3);
    UpToAfterText(VERSION_CLOSE, e.version, rest);
  }

  lemma BodyHasNoStart(e: Entry, rest: string)
    requires Clean(e) && !OneLine(e)
    ensures NoStart(NAME_OPEN[1..] + Body(e), rest)
  {
    hide NoStart, Avoids;
    TagsAreTagLike();
    var b5 := e.version + VERSION_CLOSE;
    var b4 := VERSION_OPEN + b5;
    var b3 := e.gap + b4;
    var b2 := NAME_CLOSE + b3;
    OtherTagHasNoStart(VERSION_CLOSE, rest);
    TextHasNoStart(e.version, VERSION_CLOSE + rest);
    NoStartCompose(e.version, VERSION_CLOSE, rest);
    OtherTagHasNoStart(VERSION_OPEN, b5 + rest);
    NoStartCompose(VERSION_OPEN, b5, rest);
    TextHasNoStart(e.gap, b4 + rest);
    NoStartCompose(e.gap, b4, rest);
    OtherTagHasNoStart(NAME_CLOSE, b3 + rest);
    NoStartCompose(NAME_CLOSE, b3, rest);
    TextHasNoStart(e.name, b2 + rest);
    NoStartCompose(e.name, b2, rest);
    PlainHasNoStart(NAME_OPEN[1..], Body(e) + rest);
    NoStartCompose(NAME_OPEN[1..], Body(e), rest);
  }

  /** An entry on one line is found and cut right; one broken by a carriage return is passed over, nothing of it being
      taken for part of another. */
  lemma SearchOnEntry(e: Entry, rest: string)
    requires Clean(e)
    ensures Search(Render(e) + rest) == if OneLine(e) then Some(Found(e.name, e.version, rest)) else Search(rest)
  {
    hide Avoids, ScanHere, MatchHere, NoStart, BodyThen, Body;
    var s := NAME_OPEN + BodyThen(e, rest);
    BodyThenIsBody(e, rest);
    TextHasNoStart(e.before, s);
    SearchSkips(e.before, s);
    ScanIsExpression(s);
    EntryScans(e, rest);
    if !OneLine(e) {
      var t := NAME_OPEN[1..] + Body(e);
      assert s[1..] == t + rest;
      BodyHasNoStart(e, rest);
      SearchSkips(t, rest);
    }
  }

  lemma Regroup(a: string, tag: string, b: string)
    ensures a + tag + b == a + (tag + b)
  {
  }

  /** The way from a name that has no version to the version of the next entry. */
  function GapOver(gap: string, e: Entry): string {
    gap + (e.before + (NAME_OPEN + (e.name + (NAME_CLOSE + e.gap))))
  }

  lemma GapOverRenders(gap: string, e: Entry)
    ensures gap + Render(e) == GapOver(gap, e) + (VERSION_OPEN + (e.version + VERSION_CLOSE))
  {
    var v := VERSION_OPEN + (e.version + VERSION_CLOSE);
    var g3 := NAME_CLOSE + e.gap;
    var g2 := e.name + g3;
    var g1 := NAME_OPEN + g2;
    var g0 := e.before + g1;
    Regroup(NAME_CLOSE, e.gap, v);
    Regroup(e.name, g3, v);
    Regroup(NAME_OPEN, g2, v);
    Regroup(e.before, g1, v);
    Regroup(gap, g0, v);
  }

  /** A name without a version, on one line with the next entry, takes that entry's version, and its own name goes
      unread. */
  lemma MissingVersionTakesNext(before: string, name: string, gap: string, e: Entry, rest: string)
    requires Ended(Entry(before, name, GapOver(gap, e), e.version)) &&
      OneLine(Entry(before, name, GapOver(gap, e), e.version))
    ensures Search(before + (NAME_OPEN + (name + (NAME_CLOSE + (gap + Render(e))))) + rest) ==
      Some(Found(name, e.version, rest))
  {
    hide Search, GapOver, Ended, OneLine;
    GapOverRenders(gap, e);
    var joined := Entry(before, name, GapOver(gap, e), e.version);
    assert Render(joined) == before + (NAME_OPEN + (name + (NAME_CLOSE + (gap + Render(e))))) by {
      assert joined.gap + (VERSION_OPEN + (joined.version + VERSION_CLOSE)) == gap + Render(e);
    }
    SearchOnEntry(joined, rest);
  }

  lemma TailHasNothing(tail: string)
    requires Avoids(NAME_OPEN, tail)
    ensures Search(tail) == None
  {
    TextHasNoStart(tail, "");
    SearchSkips(tail, "");
    assert tail + "" == tail;
    ScanIsExpression("");
  }

  // ---------------------------------------------------------------- whole manifests

  lemma {:induction false} ExtractRecords(es: seq<Entry>, tail: string, out: map<string, string>)
    requires (forall i :: 0 <= i < |es| ==> Clean(es[i])) && Search(tail) == None
    ensures ExtractFrom(RenderAll(es, tail), out) == Record(es, out)
    decreases |es|
  {
    hide Clean, Search, Render, OneLine;
    if es != [] {
      var rest := RenderAll(es[1..], tail);
      SearchOnEntry(es[0], rest);
      if OneLine(es[0]) {
        var f := Found(es[0].name, es[0].version, rest);
        ExtractRecords(es[1..], tail, Store(out, f));
      } else {
        SameSearchSameMap(Render(es[0]) + rest, rest, out);
        ExtractRecords(es[1..], tail, out);
      }
    }
  }

  lemma SameSearchSameMap(s: string, t: string, out: map<string, string>)
    requires Search(s) == Search(t)
    ensures ExtractFrom(s, out) == ExtractFrom(t, out)
  {
  }

  predicate Recorded(e: Entry) {
    OneLine(e) && e.name != ""
  }

  /** The version of the last recorded entry of a name. */
  function LastVersion(es: seq<Entry>, n: string): Option<string> {
    if es == [] then None
    else
      var last := es[|es| - 1];
      if Recorded(last) && last.name == n then Some(last.version) else LastVersion(es[..|es| - 1], n)
  }

  lemma {:induction false} LastVersionFromFront(es: seq<Entry>, n: string)
    requires es != []
    ensures LastVersion(es, n) ==
      if LastVersion(es[1..], n).Some? then LastVersion(es[1..], n)
      else if Recorded(es[0]) && es[0].name == n then Some(es[0].version) else None
    decreases |es|
  {
    hide Recorded;
    if |es| > 1 {
      var shorter := es[..|es| - 1];
      assert shorter[1..] == es[1..][..|es| - 2];
      LastVersionFromFront(shorter, n);
    }
  }

  lemma {:induction false} RecordKeepsLast(es: seq<Entry>, out: map<string, string>, n: string)
    ensures n in Record(es, out) <==> n in out || LastVersion(es, n).Some?
    ensures n in Record(es, out) ==>
      Record(es, out)[n] == if LastVersion(es, n).Some? then LastVersion(es, n).value else out[n]
    decreases |es|
  {
    if es != [] {
      LastVersionFromFront(es, n);
      RecordKeepsLast(es[1..], if Recorded(es[0]) then out[es[0].name := es[0].version] else out, n);
    }
  }

  /** On any manifest that is, line feeds aside, a sequence of clean entries and a rest without a match: the map holds
      exactly the names of the entries that are on one line and have a name, each with the version of its last such
      entry. */
  lemma ManifestHoldsLastVersions(manifestContent: string, es: seq<Entry>, tail: string, n: string)
    requires (forall i :: 0 <= i < |es| ==> Clean(es[i])) && Search(tail) == None
    requires StripNewlines(manifestContent) == RenderAll(es, tail)
    ensures n in ExtractVersions(manifestContent) <==> LastVersion(es, n).Some?
    ensures n in ExtractVersions(manifestContent) ==> ExtractVersions(manifestContent)[n] == LastVersion(es, n).value
  {
    hide Clean;
    ExtractRecords(es, tail, map[]);
    RecordKeepsLast(es, map[], n);
  }

  /** The same on the raw text, when its entries hold no line feed. */
  lemma PlainManifestHoldsLastVersions(es: seq<Entry>, tail: string, n: string)
    requires (forall i :: 0 <= i < |es| ==> Clean(es[i])) && Search(tail) == None && '\n' !in RenderAll(es, tail)
    ensures n in ExtractVersions(RenderAll(es, tail)) <==> LastVersion(es, n).Some?
    ensures n in ExtractVersions(RenderAll(es, tail)) ==>
      ExtractVersions(RenderAll(es, tail))[n] == LastVersion(es, n).value
  {
    NothingToStrip(RenderAll(es, tail));
    ManifestHoldsLastVersions(RenderAll(es, tail), es, tail, n);
  }

  /** Text without tags, line feeds and carriage returns. */
  predicate Plain(s: string) {
    forall i :: 0 <= i < |s| ==> s[i] != '<' && Dot(s[i])
  }

  lemma {:induction false} AvoidsPlain(tag: string, s: string)
    requires TagLike(tag) && Plain(s)
    ensures Avoids(tag, s)
    decreases |s|
  {
    if s != "" {
      AvoidsPlain(tag, s[1..]);
    }
  }

  lemma PlainEntryIsClean(name: string, version: string)
    requires Plain(name) && Plain(version)
    ensures Clean(Entry("", name, "", version)) && OneLine(Entry("", name, "", version))
  {
    hide Avoids;
    TagsAreTagLike();
    AvoidsPlain(NAME_OPEN, "");
    AvoidsPlain(NAME_CLOSE, name);
    AvoidsPlain(VERSION_OPEN, "");
    AvoidsPlain(VERSION_CLOSE, version);
  }

  lemma OneEntryExtracts(e: Entry)
    requires Clean(e) && OneLine(e) && e.name != ""
    ensures ExtractFrom(Render(e) + "", map[]) == map[e.name := e.version]
  {
    hide Clean, OneLine, Render, Search;
    TailHasNothing("");
    ExtractRecords([e], "", map[]);
    assert [e][1..] == [];
  }

  lemma TagsHaveNoLineFeed()
    ensures '\n' !in NAME_OPEN && '\n' !in NAME_CLOSE && '\n' !in VERSION_OPEN && '\n' !in VERSION_CLOSE
  {
  }

  /** An element as it stands in a file, on a line of its own. */
  lemma ElementStrips(open: string, text: string, close: string, rest: string)
    requires '\n' !in open && '\n' !in text && '\n' !in close
    ensures StripNewlines((open + (text + close)) + "\n" + rest) == (open + (text + close)) + StripNewlines(rest)
  {
    hide StripNewlines;
    NothingToStrip(open + (text + close));
    StripAround(open + (text + close), rest);
  }

  /** A component written out over two lines: its version comes out letter by letter. */
  lemma WrittenOutManifest(name: string, version: string)
    requires Plain(name) && Plain(version) && name != ""
    ensures var content := (NAME_OPEN + (name + NAME_CLOSE)) + "\n"
                         + ((VERSION_OPEN + (version + VERSION_CLOSE)) + "\n" + "");
      ExtractVersions(content) == map[name := version]
  {
    hide StripNewlines, ExtractFrom, Clean, OneLine;
    TagsHaveNoLineFeed();
    ElementStrips(NAME_OPEN, name, NAME_CLOSE, (VERSION_OPEN + (version + VERSION_CLOSE)) + "\n" + "");
    ElementStrips(VERSION_OPEN, version, VERSION_CLOSE, "");
    NothingToStrip("");
    var v := VERSION_OPEN + (version + VERSION_CLOSE);
    Regroup(name, NAME_CLOSE, v);
    Regroup(NAME_OPEN, name + NAME_CLOSE, v);
    assert v + "" == v && "" + v == v;
    var e := Entry("", name, "", version);
    assert Render(e) + "" == (NAME_OPEN + (name + NAME_CLOSE)) + v;
    PlainEntryIsClean(name, version);
    OneEntryExtracts(e);
  }

  // ---------------------------------------------------------------- the method

  /** The loop over the groups of one match, the whole match first. */
  method StoreGroups(groups: seq<string>, before: map<string, string>, ghost f: Found)
    returns (out: map<string, string>)
    requires |groups| == 3 && groups[1] == f.name && groups[2] == f.version
    ensures out == Store(before, f)
  {
    out := before;
    var first, key := true, "";
    for g := 0 to |groups|
      invariant first == (g == 0) && out == before
      invariant g <= 1 ==> key == ""
      invariant g == 2 ==> key == groups[1]
      invariant g == 3 ==> groups[1] == ""
    {
      if first {
        first := false;
        continue;
      }
      if key == "" {
        key := groups[g];
        continue;
      }
      out := out[key := groups[g]];
      break;
    }
  }

  /** `_extractVersionsFromManifest`. */
  method ExtractVersionsFromManifest(manifestContent: string) returns (out: map<string, string>)
    ensures out == ExtractVersions(manifestContent)
  {
    var searchStart := RemoveNewlines(manifestContent);
    out := map[];
    var found := Search(searchStart);
    while found.Some?
      invariant found == Search(searchStart)
      invariant ExtractFrom(searchStart, out) == ExtractVersions(manifestContent)
      decreases |searchStart|
    {
      SearchShrinks(searchStart);
      // the whole match is skipped by the loop; here it comes with the text before it
      var whole := searchStart[..|searchStart| - |found.value.suffix|];
      out := StoreGroups([whole, found.value.name, found.value.version], out, found.value);
      searchStart := found.value.suffix;
      found := Search(searchStart);
    }
  }
}
