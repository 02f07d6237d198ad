/** Hover resolution over a widget tree (`Container.hpp`, `Hoverable.hpp`) on values: the traversal with its cached
    pointer per container, and the plain search it has to agree with. Widgets are known by identity only. */
module Hover {
  import opened Options

  /** The tree as wired by `_pushContaining`: children in priority order. */
  datatype Shape<W> = Leaf(self: W) | Box(self: W, kids: seq<Shape<W>>)

  /** What a traversal reads and writes: the widgets whose `_isHovered` is set, and `_latestHoveredShape` of the
      containers where it is not null. */
  datatype State<W> = State(hovered: set<W>, latest: map<W, W>)

  datatype Outcome<W> = Outcome(state: State<W>, hit: Option<W>)

  // ---------------------------------------------------------------- the traversal

  /** `Hoverable::_checkIfMouseOver`; `inside` is the set of widgets whose geometry contains the cursor. */
  function Mark<W(==)>(s: State<W>, w: W, inside: set<W>): State<W> {
    s.(hovered := if w in inside then s.hovered + {w} else s.hovered - {w})
  }

  function SetLatest<W(==)>(s: State<W>, container: W, w: W): State<W> {
    s.(latest := s.latest[container := w])
  }

  function ClearLatest<W(==)>(s: State<W>, container: W): State<W> {
    s.(latest := s.latest - {container})
  }

  /** `_checkIfMouseOver`: look at the cached child first, then at the container, then at the children in order. */
  function Check<W(==)>(t: Shape<W>, inside: set<W>, s: State<W>): Outcome<W>
    decreases t, 1
  {
    match t
    case Leaf(self) => Outcome(Mark(s, self, inside), if self in inside then Some(self) else None)
    case Box(self, kids) =>
      var cached := CheckCached(self, kids, inside, s);
      var marked := Mark(cached.state, self, inside);
      if self !in inside then Outcome(ClearLatest(marked, self), None)
      else Scan(self, kids, inside, marked, cached.hit)
  }

  /** The call on `_latestHoveredShape`, unless it is null or the container itself. */
  function CheckCached<W(==)>(self: W, kids: seq<Shape<W>>, inside: set<W>, s: State<W>): Outcome<W>
    decreases kids, 0
  {
    if kids == [] || self !in s.latest || s.latest[self] == self then Outcome(s, None)
    else if s.latest[self] == kids[0].self then Check(kids[0], inside, s)
    else CheckCached(self, kids[1..], inside, s)
  }

  /** The loop over `_innerShapes`, from the child at the head of `kids` on. */
  function Scan<W(==)>(self: W, kids: seq<Shape<W>>, inside: set<W>, s: State<W>, deepestLatest: Option<W>): Outcome<W>
    decreases kids, 0
  {
    if kids == [] then Outcome(SetLatest(s, self, self), Some(self))
    else if self in s.latest && s.latest[self] == kids[0].self &&
      kids[0].self in s.hovered then Outcome(s, deepestLatest)
    else
      var r := Check(kids[0], inside, s);
      if kids[0].self in r.state.hovered then Outcome(SetLatest(r.state, self, kids[0].self), r.hit)
      else Scan(self, kids[1..], inside, r.state, deepestLatest)
  }

  // ---------------------------------------------------------------- the plain search

  /** First child containing the cursor, recursively, else the container itself, else nothing. No cache, no flags. */
  function Hit<W(==)>(t: Shape<W>, inside: set<W>): Option<W>
    decreases t, 1
  {
    if t.self !in inside then None
    else match t
      case Leaf(self) => Some(self)
      case Box(self, kids) => HitKids(self, kids, inside)
  }

  function HitKids<W(==)>(self: W, kids: seq<Shape<W>>, inside: set<W>): Option<W>
    decreases kids, 0
  {
    if kids == [] then Some(self)
    else if kids[0].self in inside then Hit(kids[0], inside)
    else HitKids(self, kids[1..], inside)
  }

  /** Which child that is: no earlier one contains the cursor. Only without one is it the container itself. */
  lemma {:induction false} HitIsInFirstChild<W>(self: W, kids: seq<Shape<W>>, inside: set<W>, i: nat)
    requires i <= |kids| && forall j :: 0 <= j < i ==> kids[j].self !in inside
    requires i < |kids| ==> kids[i].self in inside
    ensures HitKids(self, kids, inside) == if i < |kids| then Hit(kids[i], inside) else Some(self)
  {
    if i > 0 {
      HitIsInFirstChild(self, kids[1..], inside, i - 1);
    }
  }

  /** The widgets from the root down to the one the search finds. */
  function HitPath<W(==)>(t: Shape<W>, inside: set<W>): seq<W>
    decreases t, 1
  {
    if t.self !in inside then []
    else [t.self] + (if t.Leaf? then [] else HitPathKids(t.kids, inside))
  }

  function HitPathKids<W(==)>(kids: seq<Shape<W>>, inside: set<W>): seq<W>
    decreases kids, 0
  {
    if kids == [] then []
    else if kids[0].self in inside then HitPath(kids[0], inside)
    else HitPathKids(kids[1..], inside)
  }

  // ---------------------------------------------------------------- trees

  function Nodes<W(==)>(t: Shape<W>): (r: set<W>)
    ensures t.self in r
    decreases t, 1
  {
    {t.self} + (if t.Leaf? then {} else KidNodes(t.kids))
  }

  function KidNodes<W(==)>(kids: seq<Shape<W>>): (r: set<W>)
    decreases kids, 0
  {
    if kids == [] then {} else Nodes(kids[0]) + KidNodes(kids[1..])
  }

  /** No widget occurs twice. */
  predicate Distinct<W(==)>(t: Shape<W>)
    decreases t, 1
  {
    t.Leaf? || (t.self !in KidNodes(t.kids) && DistinctKids(t.kids))
  }

  predicate DistinctKids<W(==)>(kids: seq<Shape<W>>)
    decreases kids, 0
  {
    kids == [] || (Distinct(kids[0]) && Nodes(kids[0]) !! KidNodes(kids[1..]) && DistinctKids(kids[1..]))
  }

  // ---------------------------------------------------------------- frame

  ghost predicate SameOutside<W>(s: State<W>, t: State<W>, nodes: set<W>) {
    && (forall w :: w in s.hovered && w !in nodes ==> w in t.hovered)
    && (forall w :: w in t.hovered && w !in nodes ==> w in s.hovered)
    && (forall w :: w in s.latest && w !in nodes ==> w in t.latest && t.latest[w] == s.latest[w])
    && (forall w :: w in t.latest && w !in nodes ==> w in s.latest)
  }

  lemma {:induction false} CheckFrame<W>(t: Shape<W>, inside: set<W>, s: State<W>)
    ensures SameOutside(s, Check(t, inside, s).state, Nodes(t))
    decreases t, 1
  {
    if t.Box? {
      CachedFrame(t.self, t.kids, inside, s);
      var marked := Mark(CheckCached(t.self, t.kids, inside, s).state, t.self, inside);
      ScanFrame(t.self, t.kids, inside, marked, CheckCached(t.self, t.kids, inside, s).hit);
    }
  }

  lemma {:induction false} CachedFrame<W>(self: W, kids: seq<Shape<W>>, inside: set<W>, s: State<W>)
    ensures SameOutside(s, CheckCached(self, kids, inside, s).state, KidNodes(kids))
    decreases kids, 0
  {
    if kids != [] {
      CheckFrame(kids[0], inside, s);
      CachedFrame(self, kids[1..], inside, s);
    }
  }

  lemma {:induction false} ScanFrame<W>(self: W, kids: seq<Shape<W>>, inside: set<W>, s: State<W>,
    deepestLatest: Option<W>)
    ensures SameOutside(s, Scan(self, kids, inside, s, deepestLatest).state, KidNodes(kids) + {self})
    ensures self !in KidNodes(kids) ==>
      (self in s.hovered <==> self in Scan(self, kids, inside, s, deepestLatest).state.hovered)
    decreases kids, 0
  {
    if kids != [] {
      CheckFrame(kids[0], inside, s);
      ScanFrame(self, kids[1..], inside, Check(kids[0], inside, s).state, deepestLatest);
    }
  }

  lemma {:induction false} KidIsNode<W>(kids: seq<Shape<W>>, i: nat)
    requires i < |kids|
    ensures Nodes(kids[i]) <= KidNodes(kids)
    decreases kids
  {
    if i > 0 {
      KidIsNode(kids[1..], i - 1);
      assert kids[i] == kids[1..][i - 1];
    }
  }

  lemma LaterKidsAreOutside<W>(kids: seq<Shape<W>>)
    requires kids != [] && DistinctKids(kids)
    ensures forall i :: 0 <= i < |kids[1..]| ==> kids[1..][i].self !in Nodes(kids[0])
  {
    forall i | 0 <= i < |kids[1..]| ensures kids[1..][i].self !in Nodes(kids[0]) {
      KidIsNode(kids[1..], i);
    }
  }

  // ---------------------------------------------------------------- agreement with the search

  /** If the cached child comes up in `kids` with its flag set, it is under the cursor and `deepestLatest` is what the
      search finds below it. */
  ghost predicate Primed<W>(self: W, kids: seq<Shape<W>>, inside: set<W>, s: State<W>, deepestLatest: Option<W>) {
    forall i :: 0 <= i < |kids| && self in s.latest && s.latest[self] == kids[i].self && kids[i].self in s.hovered ==>
      kids[i].self in inside && deepestLatest == Hit(kids[i], inside)
  }

  /** The traversal finds what the search finds, whatever flags and cached pointers it starts from, stale ones
      included; and it leaves the flag of the widget it was called on right. */
  lemma {:induction false} CheckAgreesWithSearch<W>(t: Shape<W>, inside: set<W>, s: State<W>)
    requires Distinct(t)
    ensures Check(t, inside, s).hit == Hit(t, inside)
    ensures t.self in Check(t, inside, s).state.hovered <==> t.self in inside
    decreases t, 1
  {
    if t.Box? {
      var cached := CheckCached(t.self, t.kids, inside, s);
      CachedIsPrimed(t.self, t.kids, inside, s);
      CachedFrame(t.self, t.kids, inside, s);
      var marked := Mark(cached.state, t.self, inside);
      forall i | 0 <= i < |t.kids| ensures t.kids[i].self != t.self {
        KidIsNode(t.kids, i);
      }
      assert Primed(t.self, t.kids, inside, marked, cached.hit);
      if t.self in inside {
        ScanAgrees(t.self, t.kids, inside, marked, cached.hit);
        ScanFrame(t.self, t.kids, inside, marked, cached.hit);
      }
    }
  }

  lemma {:induction false} CachedIsPrimed<W>(self: W, kids: seq<Shape<W>>, inside: set<W>, s: State<W>)
    requires DistinctKids(kids) && self !in KidNodes(kids)
    ensures var r := CheckCached(self, kids, inside, s); Primed(self, kids, inside, r.state, r.hit)
    decreases kids, 0
  {
    hide Hit, Nodes;
    var r := CheckCached(self, kids, inside, s);
    CachedFrame(self, kids, inside, s);
    if kids != [] && self in s.latest && s.latest[self] != self {
      LaterKidsAreOutside(kids);
      assert forall i :: 0 < i < |kids| ==> kids[i] == kids[1..][i - 1];
      if s.latest[self] == kids[0].self {
        CheckAgreesWithSearch(kids[0], inside, s);
      } else {
        CachedIsPrimed(self, kids[1..], inside, s);
      }
    } else {
      forall i | 0 <= i < |kids| ensures kids[i].self != self {
        KidIsNode(kids, i);
      }
    }
  }

  lemma {:induction false} ScanAgrees<W>(self: W, kids: seq<Shape<W>>, inside: set<W>, s: State<W>,
    deepestLatest: Option<W>)
    requires DistinctKids(kids) && self !in KidNodes(kids)
    requires Primed(self, kids, inside, s, deepestLatest)
    ensures Scan(self, kids, inside, s, deepestLatest).hit == HitKids(self, kids, inside)
    decreases kids, 0
  {
    if kids != [] && !(self in s.latest && s.latest[self] == kids[0].self && kids[0].self in s.hovered) {
      var r := Check(kids[0], inside, s);
      CheckAgreesWithSearch(kids[0], inside, s);
      CheckFrame(kids[0], inside, s);
      LaterKidsAreOutside(kids);
      assert Primed(self, kids[1..], inside, r.state, deepestLatest);
      ScanAgrees(self, kids[1..], inside, r.state, deepestLatest);
    }
  }
}
