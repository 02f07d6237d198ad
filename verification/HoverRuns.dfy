/** Hover state from one mouse move to the next: what the flags and the cached pointers say, and exactly when they are
    right. */
module HoverRuns {
  import opened Hover
  import opened Options

  // ---------------------------------------------------------------- the settled state

  /** No flag set, no cached pointer. */
  ghost predicate Quiet<W>(nodes: set<W>, s: State<W>) {
    forall w :: w in nodes ==> w !in s.hovered && w !in s.latest
  }

  /** The state that belongs to a cursor: flags along the path to the widget under it, each container's cached pointer
      at the next widget of the path or, at its end, at the container itself, and nothing elsewhere. */
  ghost predicate Settled<W>(t: Shape<W>, inside: set<W>, s: State<W>)
    decreases t, 1
  {
    if t.self !in inside then Quiet(Nodes(t), s)
    else
      && t.self in s.hovered
      && match t
         case Leaf(self) => self !in s.latest
         case Box(self, kids) =>
           self in s.latest && s.latest[self] == FirstInside(self, kids, inside) && SettledKids(kids, inside, inside, s)
  }

  /** The first child in `chosen` is settled, the others have nothing set. */
  ghost predicate SettledKids<W>(kids: seq<Shape<W>>, chosen: set<W>, inside: set<W>, s: State<W>)
    decreases kids, 0
  {
    kids == [] ||
    (if kids[0].self in chosen then Settled(kids[0], inside, s) && Quiet(KidNodes(kids[1..]), s)
     else Quiet(Nodes(kids[0]), s) && SettledKids(kids[1..], chosen, inside, s))
  }

  function FirstInside<W(==)>(self: W, kids: seq<Shape<W>>, inside: set<W>): W {
    if kids == [] then self else if kids[0].self in inside then kids[0].self else FirstInside(self, kids[1..], inside)
  }

  /** What it takes for the flags to come out right: whenever a widget of the path for the old cursor is still under the
      new one, its container is too, and no sibling before it. Nothing is asked of a widget that was not on the path. */
  predicate Fresh<W(==)>(t: Shape<W>, before: set<W>, inside: set<W>)
    decreases t, 1
  {
    t.Leaf? || t.self !in before || FreshKids(t.self in inside, t.kids, before, inside)
  }

  /** `open`: the container is under the cursor and no earlier child is. */
  predicate FreshKids<W(==)>(open: bool, kids: seq<Shape<W>>, before: set<W>, inside: set<W>)
    decreases kids, 0
  {
    kids == [] ||
    (if kids[0].self in before then Fresh(kids[0], before, inside) && (kids[0].self in inside ==> open)
     else FreshKids(open && kids[0].self !in inside, kids[1..], before, inside))
  }

  // ---------------------------------------------------------------- states that agree on a subtree

  ghost predicate SameOn<W>(s: State<W>, t: State<W>, nodes: set<W>) {
    && (forall w :: w in nodes ==> (w in s.hovered <==> w in t.hovered))
    && (forall w :: w in nodes ==> (w in s.latest <==> w in t.latest))
    && (forall w :: w in nodes && w in s.latest ==> t.latest[w] == s.latest[w])
  }

  lemma {:induction false} SettledDependsOnNodes<W>(t: Shape<W>, inside: set<W>, s: State<W>, s': State<W>)
    requires SameOn(s, s', Nodes(t)) && Settled(t, inside, s)
    ensures Settled(t, inside, s')
    decreases t, 1
  {
    if t.Box? && t.self in inside {
      SettledKidsDependOnNodes(t.kids, inside, inside, s, s');
    }
  }

  lemma {:induction false} SettledKidsDependOnNodes<W>(kids: seq<Shape<W>>, chosen: set<W>, inside: set<W>, s: State<W>,
                                                       s': State<W>)
    requires SameOn(s, s', KidNodes(kids)) && SettledKids(kids, chosen, inside, s)
    ensures SettledKids(kids, chosen, inside, s')
    decreases kids, 0
  {
    if kids != [] {
      if kids[0].self in chosen {
        SettledDependsOnNodes(kids[0], inside, s, s');
      } else {
        SettledKidsDependOnNodes(kids[1..], chosen, inside, s, s');
      }
    }
  }

  lemma {:induction false} FirstInsideIsNode<W>(self: W, kids: seq<Shape<W>>, inside: set<W>)
    ensures FirstInside(self, kids, inside) in KidNodes(kids) + {self}
    decreases kids
  {
    if kids != [] {
      FirstInsideIsNode(self, kids[1..], inside);
    }
  }

  /** A child that is off the path and closed to it has nothing set. */
  lemma {:induction false} ClosedIsQuiet<W>(kids: seq<Shape<W>>, before: set<W>, inside: set<W>, s: State<W>)
    requires SettledKids(kids, before, inside, s) && FreshKids(false, kids, before, inside)
    ensures Quiet(KidNodes(kids), s)
    decreases kids
  {
    if kids != [] && kids[0].self !in before {
      ClosedIsQuiet(kids[1..], before, inside, s);
    }
  }

  // ---------------------------------------------------------------- from a quiet subtree

  /** With nothing set the traversal settles the tree, whatever the geometry. */
  lemma {:induction false} QuietSettles<W>(t: Shape<W>, inside: set<W>, s: State<W>)
    requires Distinct(t) && Quiet(Nodes(t), s)
    ensures Settled(t, inside, Check(t, inside, s).state)
    decreases t, 2
  {
    if t.Box? && t.self in inside {
      var marked := Mark(s, t.self, inside);
      ScanQuiet(t.self, t.kids, inside, marked, None);
      ScanFrame(t.self, t.kids, inside, marked, None);
    }
  }

  lemma {:induction false} ScanQuiet<W>(self: W, kids: seq<Shape<W>>, inside: set<W>, s: State<W>,
    deepestLatest: Option<W>)
    requires DistinctKids(kids) && self !in KidNodes(kids) && Quiet(KidNodes(kids), s)
    ensures var s' := Scan(self, kids, inside, s, deepestLatest).state;
      && SettledKids(kids, inside, inside, s')
      && self in s'.latest && s'.latest[self] == FirstInside(self, kids, inside)
    decreases kids, 0
  {
    hide Check, Hit, HitKids, Distinct;
    if kids != [] {
      QuietSettles(kids[0], inside, s);
      CheckFrame(kids[0], inside, s);
      CheckAgreesWithSearch(kids[0], inside, s);
      var r := Check(kids[0], inside, s).state;
      if kids[0].self in inside {
        SettledDependsOnNodes(kids[0], inside, r, SetLatest(r, self, kids[0].self));
      } else {
        ScanQuiet(self, kids[1..], inside, r, deepestLatest);
        ScanFrame(self, kids[1..], inside, r, deepestLatest);
      }
    }
  }

  // ---------------------------------------------------------------- fresh moves settle

  /** From the state settled for one cursor, a fresh move settles the tree for the other. */
  lemma {:induction false} FreshSettles<W>(t: Shape<W>, before: set<W>, inside: set<W>, s: State<W>)
    requires Distinct(t) && Settled(t, before, s) && Fresh(t, before, inside)
    ensures Settled(t, inside, Check(t, inside, s).state)
    decreases t, 2
  {
    if t.self !in before {
      QuietSettles(t, inside, s);
    } else if t.Box? {
      var cached := CheckCached(t.self, t.kids, inside, s);
      CachedFrame(t.self, t.kids, inside, s);
      CachedSettles(t.self, t.kids, before, inside, s, t.self in inside);
      var marked := Mark(cached.state, t.self, inside);
      SettledKidsDependOnNodes(t.kids, before, inside, cached.state, marked);
      if t.self !in inside {
        ClosedIsQuiet(t.kids, before, inside, marked);
      } else {
        ScanFresh(t.self, t.kids, before, inside, marked, cached.hit);
        ScanFrame(t.self, t.kids, inside, marked, cached.hit);
      }
    }
  }

  /** The re-check of the cached child settles it. */
  lemma {:induction false} CachedSettles<W>(self: W, kids: seq<Shape<W>>, before: set<W>, inside: set<W>, s: State<W>,
                                            open: bool)
    requires DistinctKids(kids) && self !in KidNodes(kids)
    requires SettledKids(kids, before, before, s) && self in s.latest &&
      s.latest[self] == FirstInside(self, kids, before)
    requires FreshKids(open, kids, before, inside)
    ensures SettledKids(kids, before, inside, CheckCached(self, kids, inside, s).state)
    decreases kids, 0
  {
    FirstInsideIsNode(self, kids, before);
    if kids == [] {
    } else if kids[0].self in before {
      FreshSettles(kids[0], before, inside, s);
      CheckFrame(kids[0], inside, s);
    } else {
      FirstInsideIsNode(self, kids[1..], before);
      CachedSettles(self, kids[1..], before, inside, s, open && kids[0].self !in inside);
      CachedFrame(self, kids[1..], inside, s);
    }
  }

  /** Checking a child off the old path settles it and leaves the later ones as they are. */
  lemma CheckedHead<W>(kids: seq<Shape<W>>, before: set<W>, inside: set<W>, s: State<W>)
    requires DistinctKids(kids) && SettledKids(kids, before, inside, s) && kids != [] && kids[0].self !in before
    ensures var r := Check(kids[0], inside, s).state;
      && Settled(kids[0], inside, r) && SettledKids(kids[1..], before, inside, r)
      && (kids[0].self in r.hovered <==> kids[0].self in inside)
  {
    hide Check, Hit, Distinct, Settled;
    QuietSettles(kids[0], inside, s);
    CheckFrame(kids[0], inside, s);
    CheckAgreesWithSearch(kids[0], inside, s);
    SettledKidsDependOnNodes(kids[1..], before, inside, s, Check(kids[0], inside, s).state);
  }

  lemma {:induction false} ScanFresh<W>(self: W, kids: seq<Shape<W>>, before: set<W>, inside: set<W>, s: State<W>,
                                        deepestLatest: Option<W>)
    requires DistinctKids(kids) && self !in KidNodes(kids)
    requires SettledKids(kids, before, inside, s) && self in s.latest &&
      s.latest[self] == FirstInside(self, kids, before)
    requires FreshKids(true, kids, before, inside)
    ensures var s' := Scan(self, kids, inside, s, deepestLatest).state;
      && SettledKids(kids, inside, inside, s')
      && self in s'.latest && s'.latest[self] == FirstInside(self, kids, inside)
    decreases kids, 0
  {
    hide Check, Hit, HitKids, Distinct, Fresh;
    if kids == [] {
    } else if kids[0].self in before {
      if kids[0].self !in inside {
        ScanQuiet(self, kids, inside, s, deepestLatest);
      }
    } else {
      FirstInsideIsNode(self, kids[1..], before);
      var r := Check(kids[0], inside, s).state;
      CheckedHead(kids, before, inside, s);
      CheckFrame(kids[0], inside, s);
      if kids[0].self in inside {
        ClosedIsQuiet(kids[1..], before, inside, r);
        SettledDependsOnNodes(kids[0], inside, r, SetLatest(r, self, kids[0].self));
      } else {
        ScanFresh(self, kids[1..], before, inside, r, deepestLatest);
        ScanFrame(self, kids[1..], inside, r, deepestLatest);
      }
    }
  }

  // ---------------------------------------------------------------- reading the settled state

  /** The widgets flagged in a subtree. */
  function Flagged<W(==)>(t: Shape<W>, s: State<W>): set<W> {
    set w | w in Nodes(t) && w in s.hovered
  }

  /** Following the cached pointers down from a widget. */
  function Follow<W(==)>(t: Shape<W>, s: State<W>): seq<W>
    decreases t, 1
  {
    if t.self !in s.hovered then []
    else [t.self] + (if t.Leaf? || t.self !in s.latest then [] else FollowKids(t.kids, s.latest[t.self], s))
  }

  function FollowKids<W(==)>(kids: seq<Shape<W>>, next: W, s: State<W>): seq<W>
    decreases kids, 0
  {
    if kids == [] then []
    else if kids[0].self == next then Follow(kids[0], s)
    else FollowKids(kids[1..], next, s)
  }

  function Elements<W(==)>(ws: seq<W>): set<W> {
    set w | w in ws
  }

  /** In a settled state the flags are exactly the path the search walks, and the cached pointers spell it. */
  lemma {:induction false} SettledShowsPath<W>(t: Shape<W>, inside: set<W>, s: State<W>)
    requires Distinct(t) && Settled(t, inside, s)
    ensures Flagged(t, s) == Elements(HitPath(t, inside))
    ensures Follow(t, s) == HitPath(t, inside)
    decreases t, 1
  {
    if t.Box? && t.self in inside {
      var next := FirstInside(t.self, t.kids, inside);
      SettledKidsShowPath(t.self, t.kids, inside, s, next);
      assert Elements([t.self] + HitPathKids(t.kids, inside)) == {t.self} + Elements(HitPathKids(t.kids, inside));
    }
  }

  lemma {:induction false} SettledKidsShowPath<W>(self: W, kids: seq<Shape<W>>, inside: set<W>, s: State<W>, next: W)
    requires DistinctKids(kids) && self !in KidNodes(kids) && SettledKids(kids, inside, inside, s)
    requires next == FirstInside(self, kids, inside)
    ensures (set w | w in KidNodes(kids) && w in s.hovered) == Elements(HitPathKids(kids, inside))
    ensures FollowKids(kids, next, s) == HitPathKids(kids, inside)
    decreases kids, 0
  {
    if kids != [] {
      if kids[0].self in inside {
        SettledShowsPath(kids[0], inside, s);
        assert (set w | w in KidNodes(kids) && w in s.hovered) == Flagged(kids[0], s);
      } else {
        SettledKidsShowPath(self, kids[1..], inside, s, next);
        FirstInsideIsNode(self, kids[1..], inside);
        assert (set w | w in KidNodes(kids) && w in s.hovered) == (set w | w in KidNodes(kids[1..]) && w in s.hovered);
      }
    }
  }

  /** The path ends at what the search returns. */
  lemma {:induction false} PathEndsAtHit<W>(t: Shape<W>, inside: set<W>)
    ensures Hit(t, inside) == if HitPath(t, inside) == [] then None
      else Some(HitPath(t, inside)[|HitPath(t, inside)| - 1])
    ensures HitPath(t, inside) != [] <==> t.self in inside
    decreases t, 1
  {
    if t.Box? && t.self in inside {
      PathKidsEndAtHit(t.self, t.kids, inside);
    }
  }

  lemma {:induction false} PathKidsEndAtHit<W>(self: W, kids: seq<Shape<W>>, inside: set<W>)
    ensures HitKids(self, kids, inside) ==
      if HitPathKids(kids, inside) == [] then Some(self)
        else Some(HitPathKids(kids, inside)[|HitPathKids(kids, inside)| - 1])
    decreases kids, 0
  {
    if kids != [] {
      if kids[0].self in inside {
        PathEndsAtHit(kids[0], inside);
      } else {
        PathKidsEndAtHit(self, kids[1..], inside);
      }
    }
  }

  // ---------------------------------------------------------------- other moves leave a flag behind

  /** A container that is not under the cursor and has no cached pointer is passed over. */
  lemma CheckIdles<W>(t: Shape<W>, inside: set<W>, s: State<W>)
    requires t.self !in inside && t.self !in s.hovered && t.self !in s.latest
    ensures Check(t, inside, s).state == s
  {
    if t.Box? {
      assert CheckCached(t.self, t.kids, inside, s) == Outcome(s, None);
      assert s.latest - {t.self} == s.latest;
    }
    assert s.hovered - {t.self} == s.hovered;
  }

  /** A traversal leaves no cached pointer on a widget that is not under the cursor. */
  lemma CheckClears<W>(t: Shape<W>, before: set<W>, inside: set<W>, s: State<W>)
    requires Distinct(t) && Settled(t, before, s) && t.self !in inside
    ensures t.self !in Check(t, inside, s).state.latest
  {
  }

  /** The search's path below a container avoids a widget of a child, if it avoids it inside that child or an earlier
      child is under the cursor. */
  lemma {:induction false} PathAvoids<W>(kids: seq<Shape<W>>, inside: set<W>, i: nat, w: W)
    requires DistinctKids(kids) && i < |kids| && w in Nodes(kids[i])
    requires w !in HitPath(kids[i], inside) || exists j :: 0 <= j < i && kids[j].self in inside
    ensures w !in HitPathKids(kids, inside)
    decreases kids
  {
    if i > 0 {
      KidIsNode(kids[1..], i - 1);
      assert kids[1..][i - 1] == kids[i];
      PathIsInTree(kids[0], inside);
      if kids[0].self !in inside {
        assert forall j :: 0 < j < i ==> kids[j] == kids[1..][j - 1];
        PathAvoids(kids[1..], inside, i - 1, w);
      }
    } else if kids[0].self !in inside {
      PathKidsIsInTree(kids[1..], inside);
    }
  }

  lemma {:induction false} PathIsInTree<W>(t: Shape<W>, inside: set<W>)
    ensures forall w :: w in HitPath(t, inside) ==> w in Nodes(t)
    decreases t, 1
  {
    if t.Box? {
      PathKidsIsInTree(t.kids, inside);
    }
  }

  lemma {:induction false} PathKidsIsInTree<W>(kids: seq<Shape<W>>, inside: set<W>)
    ensures forall w :: w in HitPathKids(kids, inside) ==> w in KidNodes(kids)
    decreases kids, 0
  {
    if kids != [] {
      PathIsInTree(kids[0], inside);
      PathKidsIsInTree(kids[1..], inside);
    }
  }

  /** The child on the old path. */
  ghost predicate OnPath<W>(kids: seq<Shape<W>>, before: set<W>, i: nat) {
    i < |kids| && kids[i].self in before && forall j :: 0 <= j < i ==> kids[j].self !in before
  }

  ghost predicate OpenAt<W>(open: bool, kids: seq<Shape<W>>, inside: set<W>, i: nat)
    requires i <= |kids|
  {
    open && forall j :: 0 <= j < i ==> kids[j].self !in inside
  }

  /** Where a move is not fresh, it is so because of the child on the old path. */
  lemma {:induction false} NotFreshAt<W>(open: bool, kids: seq<Shape<W>>, before: set<W>, inside: set<W>)
    returns (i: nat)
    requires !FreshKids(open, kids, before, inside)
    ensures OnPath(kids, before, i)
    ensures !Fresh(kids[i], before, inside) || (kids[i].self in inside && !OpenAt(open, kids, inside, i))
    decreases kids
  {
    if kids[0].self in before {
      i := 0;
    } else {
      var k := NotFreshAt(open && kids[0].self !in inside, kids[1..], before, inside);
      i := k + 1;
      assert forall j :: 0 < j <= i ==> kids[j] == kids[1..][j - 1];
      if kids[i].self in inside && OpenAt(open, kids, inside, i) {
        assert OpenAt(open && kids[0].self !in inside, kids[1..], inside, k);
      }
    }
  }

  /** What the re-check of the cached child amounts to. */
  lemma {:induction false} CachedIsChild<W>(self: W, kids: seq<Shape<W>>, before: set<W>, inside: set<W>,
    s: State<W>, i: nat)
    requires DistinctKids(kids) && self !in KidNodes(kids)
    requires SettledKids(kids, before, before, s) && self in s.latest &&
      s.latest[self] == FirstInside(self, kids, before)
    requires OnPath(kids, before, i)
    ensures s.latest[self] == kids[i].self && CheckCached(self, kids, inside, s) == Check(kids[i], inside, s)
    ensures Settled(kids[i], before, s) && Distinct(kids[i]) && Nodes(kids[i]) <= KidNodes(kids)
    decreases kids
  {
    KidIsNode(kids, i);
    if i > 0 {
      assert forall j :: 0 < j <= i ==> kids[j] == kids[1..][j - 1];
      assert OnPath(kids[1..], before, i - 1);
      CachedIsChild(self, kids[1..], before, inside, s, i - 1);
      KidIsNode(kids[1..], i - 1);
    }
  }

  /** A flag left in the cached child's subtree stays there to the end of the scan. */
  lemma {:induction false} ScanKeepsStray<W>(self: W, kids: seq<Shape<W>>, inside: set<W>, s: State<W>,
                                             deepestLatest: Option<W>, i: nat, w: W)
    requires DistinctKids(kids) && self !in KidNodes(kids) && i < |kids|
    requires self in s.latest && s.latest[self] == kids[i].self
    requires w in Nodes(kids[i]) && w in s.hovered
    requires kids[i].self in s.hovered <==> kids[i].self in inside
    requires kids[i].self !in inside ==> kids[i].self !in s.latest
    ensures w in Scan(self, kids, inside, s, deepestLatest).state.hovered
    decreases kids
  {
    if i > 0 {
      KidIsNode(kids[1..], i - 1);
      assert kids[1..][i - 1] == kids[i];
      CheckFrame(kids[0], inside, s);
      ScanKeepsStray(self, kids[1..], inside, Check(kids[0], inside, s).state, deepestLatest, i - 1, w);
    } else if kids[0].self !in inside {
      CheckIdles(kids[0], inside, s);
      ScanFrame(self, kids[1..], inside, s, deepestLatest);
    }
  }

  /** A move that is not fresh leaves a widget flagged that is not on the path. */
  lemma {:induction false} NotFreshStrays<W>(t: Shape<W>, before: set<W>, inside: set<W>, s: State<W>) returns (w: W)
    requires Distinct(t) && Settled(t, before, s) && !Fresh(t, before, inside)
    ensures w in Nodes(t) && w in Check(t, inside, s).state.hovered && w !in HitPath(t, inside)
    decreases t
  {
    var self, kids := t.self, t.kids;
    var i := NotFreshAt(self in inside, kids, before, inside);
    CachedIsChild(self, kids, before, inside, s, i);
    var c, r := kids[i], Check(kids[i], inside, s);
    CheckAgreesWithSearch(c, inside, s);
    CheckFrame(c, inside, s);
    if !Fresh(c, before, inside) {
      w := NotFreshStrays(c, before, inside, s);
    } else {
      w := c.self;
    }
    if self in inside {
      PathAvoids(kids, inside, i, w);
      if c.self !in inside {
        CheckClears(c, before, inside, s);
      }
      ScanKeepsStray(self, kids, inside, Mark(r.state, self, inside), r.hit, i, w);
    }
  }

  /** From the state settled for the old cursor, the flags after a move are exactly the path of the search if and only
      if the move is fresh. */
  lemma FlagsArePathExactlyIfFresh<W>(t: Shape<W>, before: set<W>, inside: set<W>, s: State<W>)
    requires Distinct(t) && Settled(t, before, s)
    ensures Flagged(t, Check(t, inside, s).state) == Elements(HitPath(t, inside)) <==> Fresh(t, before, inside)
    ensures Settled(t, inside, Check(t, inside, s).state) <==> Fresh(t, before, inside)
  {
    hide Check, Settled, Fresh, Distinct;
    var after := Check(t, inside, s).state;
    if Fresh(t, before, inside) {
      FreshSettles(t, before, inside, s);
      SettledShowsPath(t, inside, after);
    } else {
      var w := NotFreshStrays(t, before, inside, s);
      assert w in Flagged(t, after) && w !in Elements(HitPath(t, inside));
      if Settled(t, inside, after) {
        SettledShowsPath(t, inside, after);
      }
    }
  }
}
