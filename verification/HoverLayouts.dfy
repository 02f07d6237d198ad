/** Hover state over whole runs of mouse moves, with geometry that may change between them. */
module HoverLayouts {
  import opened Hover
  import opened HoverRuns
  import opened Vectors

  datatype Range2D = Range2D(min: Vector2, max: Vector2)

  /** `Range2D::contains(point)`: lower bounds included, upper bounds not. */
  predicate Contains(r: Range2D, p: Vector2) {
    r.min.x <= p.x < r.max.x && r.min.y <= p.y < r.max.y
  }

  predicate Within(inner: Range2D, outer: Range2D) {
    && outer.min.x <= inner.min.x && inner.max.x <= outer.max.x
    && outer.min.y <= inner.min.y && inner.max.y <= outer.max.y
  }

  predicate Apart(a: Range2D, b: Range2D) {
    a.max.x <= b.min.x || b.max.x <= a.min.x || a.max.y <= b.min.y || b.max.y <= a.min.y
  }

  /** One mouse move: where every widget is at that moment, and the cursor. */
  datatype Move<W> = Move(geometry: map<W, Range2D>, cursor: Vector2)

  function InsideOf<W(==)>(m: Move<W>): set<W> {
    set w | w in m.geometry && Contains(m.geometry[w], m.cursor)
  }

  /** Children lie inside their parent and siblings are apart. */
  predicate LaidOut<W(==)>(t: Shape<W>, g: map<W, Range2D>)
    decreases t, 1
  {
    t.self in g && (t.Leaf? || LaidOutKids(g[t.self], t.kids, g))
  }

  predicate LaidOutKids<W(==)>(outer: Range2D, kids: seq<Shape<W>>, g: map<W, Range2D>)
    decreases kids, 0
  {
    kids == [] ||
    (&& LaidOut(kids[0], g) && Within(g[kids[0].self], outer) && LaidOutKids(outer, kids[1..], g)
     && ApartFromAll(g[kids[0].self], kids[1..], g))
  }

  predicate ApartFromAll<W(==)>(r: Range2D, kids: seq<Shape<W>>, g: map<W, Range2D>) {
    kids == [] || (kids[0].self in g && Apart(r, g[kids[0].self]) && ApartFromAll(r, kids[1..], g))
  }

  // ---------------------------------------------------------------- layouts that make every move fresh

  /** A widget under the cursor has its parent under it, and at most one child of a container is. */
  predicate Nested<W(==)>(t: Shape<W>, inside: set<W>)
    decreases t, 1
  {
    t.Leaf? || (NestedKids(t.kids, inside) && (t.self !in inside ==> NoneInside(t.kids, inside)))
  }

  predicate NestedKids<W(==)>(kids: seq<Shape<W>>, inside: set<W>)
    decreases kids, 0
  {
    kids == [] ||
    (&& Nested(kids[0], inside) && NestedKids(kids[1..], inside)
     && (kids[0].self in inside ==> NoneInside(kids[1..], inside)))
  }

  predicate NoneInside<W(==)>(kids: seq<Shape<W>>, inside: set<W>) {
    kids == [] || (kids[0].self !in inside && NoneInside(kids[1..], inside))
  }

  lemma {:induction false} LaidOutIsNested<W>(t: Shape<W>, m: Move<W>)
    requires LaidOut(t, m.geometry)
    ensures Nested(t, InsideOf(m))
    decreases t, 1
  {
    if t.Box? {
      LaidOutKidsAreNested(m.geometry[t.self], t.kids, m);
    }
  }

  lemma {:induction false} LaidOutKidsAreNested<W>(outer: Range2D, kids: seq<Shape<W>>, m: Move<W>)
    requires LaidOutKids(outer, kids, m.geometry)
    ensures NestedKids(kids, InsideOf(m))
    ensures !Contains(outer, m.cursor) ==> NoneInside(kids, InsideOf(m))
    decreases kids, 0
  {
    if kids != [] {
      LaidOutIsNested(kids[0], m);
      LaidOutKidsAreNested(outer, kids[1..], m);
      if kids[0].self in InsideOf(m) {
        ApartMeansNoneInside(m.geometry[kids[0].self], kids[1..], m);
      }
    }
  }

  lemma {:induction false} ApartMeansNoneInside<W>(r: Range2D, kids: seq<Shape<W>>, m: Move<W>)
    requires ApartFromAll(r, kids, m.geometry) && Contains(r, m.cursor)
    ensures NoneInside(kids, InsideOf(m))
    decreases kids
  {
    if kids != [] {
      ApartMeansNoneInside(r, kids[1..], m);
    }
  }

  lemma {:induction false} NestedIsFresh<W>(t: Shape<W>, before: set<W>, inside: set<W>)
    requires Nested(t, inside)
    ensures Fresh(t, before, inside)
    decreases t, 1
  {
    if t.Box? {
      NestedKidsAreFresh(t.self in inside, t.kids, before, inside);
    }
  }

  lemma {:induction false} NestedKidsAreFresh<W>(open: bool, kids: seq<Shape<W>>, before: set<W>, inside: set<W>)
    requires NestedKids(kids, inside) && (open || NoneInside(kids, inside))
    ensures FreshKids(open, kids, before, inside)
    decreases kids, 0
  {
    if kids != [] {
      NestedIsFresh(kids[0], before, inside);
      if kids[0].self !in before {
        NestedKidsAreFresh(open && kids[0].self !in inside, kids[1..], before, inside);
      }
    }
  }

  // ---------------------------------------------------------------- runs of moves

  function Run<W(==)>(t: Shape<W>, s: State<W>, moves: seq<Move<W>>): State<W>
    decreases |moves|
  {
    if moves == [] then s else Run(t, Check(t, InsideOf(moves[0]), s).state, moves[1..])
  }

  /** Each move is fresh after the one before it. */
  predicate FreshRun<W(==)>(t: Shape<W>, before: set<W>, moves: seq<Move<W>>)
    decreases |moves|
  {
    moves == [] || (Fresh(t, before, InsideOf(moves[0])) && FreshRun(t, InsideOf(moves[0]), moves[1..]))
  }

  /** After each move the flagged widgets are exactly the path from the root to the deepest widget under the cursor. */
  ghost predicate ShowsPathThroughout<W>(t: Shape<W>, s: State<W>, moves: seq<Move<W>>)
    decreases |moves|
  {
    moves == [] ||
    var s' := Check(t, InsideOf(moves[0]), s).state;
    Flagged(t, s') == Elements(HitPath(t, InsideOf(moves[0]))) && ShowsPathThroughout(t, s', moves[1..])
  }

  lemma {:induction false} RunShowsPathExactlyIfFresh<W>(t: Shape<W>, before: set<W>, s: State<W>, moves: seq<Move<W>>)
    requires Distinct(t) && Settled(t, before, s)
    ensures ShowsPathThroughout(t, s, moves) <==> FreshRun(t, before, moves)
    decreases |moves|
  {
    hide Check, Settled, Fresh, Distinct;
    if moves != [] {
      var inside := InsideOf(moves[0]);
      FlagsArePathExactlyIfFresh(t, before, inside, s);
      if Fresh(t, before, inside) {
        RunShowsPathExactlyIfFresh(t, inside, Check(t, inside, s).state, moves[1..]);
      }
    }
  }

  function NothingHovered<W>(): State<W> {
    State({}, map[])
  }

  /** For every tree and every run, over any geometry: the flags are right after each move if and only if each is fresh.
      The first always is. */
  lemma FlagsArePathThroughoutExactlyIfFresh<W>(t: Shape<W>, moves: seq<Move<W>>)
    requires Distinct(t)
    ensures ShowsPathThroughout(t, NothingHovered(), moves) <==> FreshRun(t, {}, moves)
    ensures moves != [] ==> Fresh(t, {}, InsideOf(moves[0]))
  {
    RunShowsPathExactlyIfFresh(t, {}, NothingHovered(), moves);
  }

  lemma {:induction false} RunSettles<W>(t: Shape<W>, before: set<W>, s: State<W>, moves: seq<Move<W>>)
    requires Distinct(t) && Settled(t, before, s) && FreshRun(t, before, moves)
    ensures Settled(t, if moves == [] then before else InsideOf(moves[|moves| - 1]), Run(t, s, moves))
    decreases |moves|
  {
    hide Check, Settled, Fresh, Distinct;
    if moves != [] {
      FreshSettles(t, before, InsideOf(moves[0]), s);
      RunSettles(t, InsideOf(moves[0]), Check(t, InsideOf(moves[0]), s).state, moves[1..]);
    }
  }

  /** After fresh moves following the cached pointers from the root spells the path, too. */
  lemma FreshRunShowsPath<W>(t: Shape<W>, moves: seq<Move<W>>)
    requires Distinct(t) && moves != [] && FreshRun(t, {}, moves)
    ensures var s := Run(t, NothingHovered(), moves);
      var path := HitPath(t, InsideOf(moves[|moves| - 1]));
      Flagged(t, s) == Elements(path) && Follow(t, s) == path
  {
    RunSettles(t, {}, NothingHovered(), moves);
    SettledShowsPath(t, InsideOf(moves[|moves| - 1]), Run(t, NothingHovered(), moves));
  }

  lemma {:induction false} LaidOutRunsAreFresh<W>(t: Shape<W>, before: set<W>, moves: seq<Move<W>>)
    requires forall i :: 0 <= i < |moves| ==> LaidOut(t, moves[i].geometry)
    ensures FreshRun(t, before, moves)
    decreases |moves|
  {
    hide LaidOut, Fresh;
    if moves != [] {
      LaidOutIsNested(t, moves[0]);
      NestedIsFresh(t, before, InsideOf(moves[0]));
      LaidOutRunsAreFresh(t, InsideOf(moves[0]), moves[1..]);
    }
  }

  /** If children lie inside their parent and siblings are apart at each move, all is well. */
  lemma FlagsArePathOverLayouts<W>(t: Shape<W>, moves: seq<Move<W>>)
    requires Distinct(t) && moves != []
    requires forall i :: 0 <= i < |moves| ==> LaidOut(t, moves[i].geometry)
    ensures ShowsPathThroughout(t, NothingHovered(), moves)
    ensures var s := Run(t, NothingHovered(), moves);
      var path := HitPath(t, InsideOf(moves[|moves| - 1]));
      Flagged(t, s) == Elements(path) && Follow(t, s) == path
  {
    LaidOutRunsAreFresh(t, {}, moves);
    FlagsArePathThroughoutExactlyIfFresh(t, moves);
    FreshRunShowsPath(t, moves);
  }

  // ---------------------------------------------------------------- an open panel over a button

  const WINDOW := 0
  const BUTTON := 1
  const PANEL := 2

  const OPEN_PANEL: map<int, Range2D> := map[
    WINDOW := Range2D(Vector2(-1.0, -1.0), Vector2(1.0, 1.0)),
    BUTTON := Range2D(Vector2(-0.9, -1.1), Vector2(-0.7, -0.9)),
    PANEL := Range2D(Vector2(-1.0, -1.0), Vector2(-0.5, 1.0))]

  /** A cursor goes from the second of two children onto both. */
  lemma FromSecondOntoBoth()
    ensures var t := Box(0, [Leaf(1), Leaf(2)]);
      var s := Check(t, {0, 1, 2}, Check(t, {0, 2}, State({}, map[])).state).state;
      Distinct(t) && Flagged(t, s) == {0, 1, 2} && HitPath(t, {0, 1, 2}) == [0, 1]
  {
    var kids := [Leaf(1), Leaf(2)];
    var t := Box(0, kids);
    assert kids[1..] == [Leaf(2)] && kids[1..][1..] == [];
    var s := Check(t, {0, 2}, State({}, map[])).state;
    assert s.hovered == {0, 2} && s.latest[0] == 2;
    assert CheckCached(0, kids, {0, 1, 2}, s) == Check(kids[1], {0, 1, 2}, s);
    assert Nodes(t) == {0, 1, 2};
  }

  /** The button comes first and reaches below the window, the open panel covers the rest of it. A cursor that goes from
      the panel onto the button leaves both flagged, while the search finds the button. */
  lemma PanelStaysFlaggedOverButton()
    ensures var t := Box(WINDOW, [Leaf(BUTTON), Leaf(PANEL)]);
      var moves := [Move(OPEN_PANEL, Vector2(-0.8, 0.0)), Move(OPEN_PANEL, Vector2(-0.8, -0.95))];
      && Flagged(t, Run(t, NothingHovered(), moves)) == {WINDOW, BUTTON, PANEL}
      && HitPath(t, InsideOf(moves[1])) == [WINDOW, BUTTON]
      && !FreshRun(t, {}, moves)
  {
    hide Check, Flagged, Nodes, Distinct, HitPath, FreshRun;
    var t := Box(WINDOW, [Leaf(BUTTON), Leaf(PANEL)]);
    var moves := [Move(OPEN_PANEL, Vector2(-0.8, 0.0)), Move(OPEN_PANEL, Vector2(-0.8, -0.95))];
    FromSecondOntoBoth();
    assert InsideOf(moves[0]) == {WINDOW, PANEL};
    assert InsideOf(moves[1]) == {WINDOW, BUTTON, PANEL};
    var s := Check(t, {WINDOW, PANEL}, NothingHovered()).state;
    assert moves[1..] == [moves[1]] && moves[1..][1..] == [];
    assert Run(t, s, moves[1..]) == Check(t, {WINDOW, BUTTON, PANEL}, s).state;
    FlagsArePathThroughoutExactlyIfFresh(t, moves);
    assert ShowsPathThroughout(t, s, moves[1..]) ==> {WINDOW, BUTTON, PANEL} == Elements([WINDOW, BUTTON]);
    assert PANEL !in Elements([WINDOW, BUTTON]);
  }
}
