/** Taking the line feeds out of a manifest (`std::remove` and `erase` in `UpdateChecker.hpp`). */
module LineFeeds {

  function StripNewlines(s: string): string {
    if s == "" then "" else (if s[0] == '\n' then "" else [s[0]]) + StripNewlines(s[1..])
  }

  /** `picked` is `s` at the places `at`, which are all those where there is no line feed, in order. */
  ghost predicate Picks(s: string, picked: string, at: seq<nat>) {
    && |at| == |picked|
    && (forall i :: 0 <= i < |at| ==> at[i] < |s| && picked[i] == s[at[i]])
    && (forall i, j :: 0 <= i < j < |at| ==> at[i] < at[j])
    && (forall k :: 0 <= k < |s| ==> (k in at <==> s[k] != '\n'))
  }

  lemma {:induction false} StripConcat(a: string, b: string)
    ensures StripNewlines(a + b) == StripNewlines(a) + StripNewlines(b)
    decreases |a|
  {
    if a == "" {
      assert a + b == b;
    } else {
      assert (a + b)[1..] == a[1..] + b;
      StripConcat(a[1..], b);
    }
  }

  lemma StripOne(c: char)
    ensures StripNewlines([c]) == if c == '\n' then "" else [c]
  {
    assert [c][1..] == "";
  }

  /** A line feed goes, and what is around it stays together. */
  lemma StripAround(a: string, b: string)
    ensures StripNewlines(a + "\n" + b) == StripNewlines(a) + StripNewlines(b)
  {
    StripConcat(a + "\n", b);
    StripConcat(a, "\n");
    StripOne('\n');
  }

  /** Nothing else goes. */
  lemma {:induction false} NothingToStrip(s: string)
    ensures '\n' !in s <==> StripNewlines(s) == s
    decreases |s|
  {
    StrippedHasNoNewline(s);
    if s != "" && '\n' !in s {
      assert s[0] in s && forall c :: c in s[1..] ==> c in s;
      NothingToStrip(s[1..]);
    }
  }

  lemma StrippedHasNoNewline(s: string)
    ensures forall i :: 0 <= i < |StripNewlines(s)| ==> StripNewlines(s)[i] != '\n'
  {
    StrippedComesFrom(s);
  }

  lemma StrippedKeepsNoReturn(s: string)
    requires forall i :: 0 <= i < |s| ==> s[i] != '\r'
    ensures forall i :: 0 <= i < |StripNewlines(s)| ==> StripNewlines(s)[i] != '\r'
  {
    StrippedComesFrom(s);
  }

  lemma {:induction false} StrippedComesFrom(s: string)
    ensures forall c :: c in StripNewlines(s) ==> c in s && c != '\n'
    decreases |s|
  {
    if s != "" {
      StrippedComesFrom(s[1..]);
    }
  }

  lemma OneMorePicked(s: string, picked: string, at: seq<nat>, c: char)
    requires Picks(s, picked, at)
    ensures c == '\n' ==> Picks(s + [c], picked, at)
    ensures c != '\n' ==> Picks(s + [c], picked + [c], at + [|s|])
  {
    var t := s + [c];
    assert forall k :: 0 <= k < |s| ==> t[k] == s[k];
    assert |s| !in at;
    assert forall k :: k in at + [|s|] <==> k in at || k == |s|;
  }

  /** The result is the characters of the content at the places where there is no line feed, in order. */
  method RemoveNewlines(content: string) returns (stripped: string)
    ensures stripped == StripNewlines(content)
    ensures exists at :: Picks(content, stripped, at)
  {
    stripped := "";
    ghost var at: seq<nat> := [];
    for i := 0 to |content|
      invariant stripped == StripNewlines(content[..i])
      invariant Picks(content[..i], stripped, at)
    {
      assert content[..i + 1] == content[..i] + [content[i]];
      StripConcat(content[..i], [content[i]]);
      StripOne(content[i]);
      OneMorePicked(content[..i], stripped, at, content[i]);
      if content[i] != '\n' {
        stripped := stripped + [content[i]];
        at := at + [i];
      }
    }
    assert content[..|content|] == content;
  }
}
