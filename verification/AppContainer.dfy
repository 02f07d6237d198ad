/** Event routing of `AppContainer.hpp`: presses lock onto the deepest hovered widget, moves and releases go to the lock
    only, scrolls bubble from the deepest hovered widget to the nearest ancestor that handles them. */
module AppContainers {
  import opened Hover
  import opened HoverLayouts
  import opened Options
  import opened Vectors
  import opened Widgets

  // ---------------------------------------------------------------- paths

  /** The widgets from the root of `t` down to `w`, or nothing if `w` is not in it. */
  function PathTo<W(==)>(t: Shape<W>, w: W): seq<W>
    decreases t, 1
  {
    if t.self == w then [w]
    else if t.Leaf? then []
    else
      var below := PathToKids(t.kids, w);
      if below == [] then [] else [t.self] + below
  }

  function PathToKids<W(==)>(kids: seq<Shape<W>>, w: W): seq<W>
    decreases kids, 0
  {
    if kids == [] then []
    else
      var below := PathTo(kids[0], w);
      if below != [] then below else PathToKids(kids[1..], w)
  }

  lemma {:induction false} PathEndsThere<W>(t: Shape<W>, w: W)
    ensures PathTo(t, w) != [] <==> w in Nodes(t)
    ensures w in Nodes(t) ==> PathTo(t, w)[|PathTo(t, w)| - 1] == w && PathTo(t, w)[0] == t.self
    decreases t, 1
  {
    if t.Box? && t.self != w {
      PathKidsEndThere(t.kids, w);
    }
  }

  lemma {:induction false} PathKidsEndThere<W>(kids: seq<Shape<W>>, w: W)
    ensures PathToKids(kids, w) != [] <==> w in KidNodes(kids)
    ensures w in KidNodes(kids) ==> PathToKids(kids, w)[|PathToKids(kids, w)| - 1] == w
    decreases kids, 0
  {
    if kids != [] {
      PathEndsThere(kids[0], w);
      PathKidsEndThere(kids[1..], w);
    }
  }

  /** The child a path goes through. */
  lemma {:induction false} PathThroughKid<W>(kids: seq<Shape<W>>, w: W) returns (i: nat)
    requires DistinctKids(kids) && w in KidNodes(kids)
    ensures i < |kids| && w in Nodes(kids[i]) && PathToKids(kids, w) == PathTo(kids[i], w)
    ensures forall x :: x in Nodes(kids[i]) ==> x in KidNodes(kids) && PathToKids(kids, x) == PathTo(kids[i], x)
    ensures Distinct(kids[i])
    decreases kids
  {
    PathEndsThere(kids[0], w);
    if w in Nodes(kids[0]) {
      i := 0;
      forall x | x in Nodes(kids[0]) ensures PathToKids(kids, x) == PathTo(kids[0], x) {
        PathEndsThere(kids[0], x);
      }
    } else {
      var j := PathThroughKid(kids[1..], w);
      i := j + 1;
      forall x | x in Nodes(kids[i]) ensures PathToKids(kids, x) == PathTo(kids[i], x) {
        assert x in KidNodes(kids[1..]);
        PathEndsThere(kids[0], x);
      }
    }
  }

  /** Parent pointers say who contains whom. */
  ghost predicate ParentsOk(universe: set<Widget>, root: Widget)
    reads universe`innerShapes, universe`parent, root`parent
  {
    && root.parent == null
    && forall w, x :: w in universe && x in universe && x in w.innerShapes ==> x.parent == w
  }

  /** Going to the parent drops the last widget of the path. */
  lemma {:induction false} ParentIsNextOnPath(top: Widget, w: Widget, universe: set<Widget>, root: Widget)
    requires top in universe && AllBuilt(universe) && ParentsOk(universe, root)
    requires Distinct(top.shape) && w in Nodes(top.shape) && w != top
    ensures var path := PathTo(top.shape, w);
      && |path| >= 2 && w.parent == path[|path| - 2]
      && path[|path| - 2] in Nodes(top.shape) && PathTo(top.shape, path[|path| - 2]) == path[..|path| - 1]
    decreases top.shape
  {
    assert top.Built(universe);
    var t := top.shape;
    var i := PathThroughKid(t.kids, w);
    var kid := top.innerShapes[i];
    assert kid.Built(universe) && kid.shape == t.kids[i];
    PathEndsThere(t.kids[i], w);
    var below := PathTo(t.kids[i], w);
    assert PathTo(t, w) == [top] + below;
    if w == kid {
      assert below == [w];
      assert PathTo(t, top) == [top] == PathTo(t, w)[..1];
    } else {
      ParentIsNextOnPath(kid, w, universe, root);
      var p := below[|below| - 2];
      assert PathTo(t, p) == [top] + below[..|below| - 1];
      assert [top] + below[..|below| - 1] == ([top] + below)[..|below|];
    }
  }

  /** The deepest widget of a path that is in `handlers`. */
  function Nearest<W(==)>(path: seq<W>, handlers: set<W>): Option<W> {
    if path == [] then None
    else if path[|path| - 1] in handlers then Some(path[|path| - 1])
    else Nearest(path[..|path| - 1], handlers)
  }

  predicate NoneAfter<W(==)>(path: seq<W>, k: nat, handlers: set<W>) {
    forall j :: k < j < |path| ==> path[j] !in handlers
  }

  lemma {:induction false} NearestIsDeepestHandler<W>(path: seq<W>, handlers: set<W>)
    ensures match Nearest(path, handlers)
      case None => forall k :: 0 <= k < |path| ==> path[k] !in handlers
      case Some(h) => (h in handlers && exists k :: 0 <= k < |path| && path[k] == h && NoneAfter(path, k, handlers))
    decreases |path|
  {
    if path != [] {
      if path[|path| - 1] in handlers {
        assert NoneAfter(path, |path| - 1, handlers);
      } else {
        var shorter := path[..|path| - 1];
        NearestIsDeepestHandler(shorter, handlers);
        match Nearest(shorter, handlers) {
          case None =>
          case Some(h) =>
            var k :| 0 <= k < |shorter| && shorter[k] == h && NoneAfter(shorter, k, handlers);
            assert path[k] == h && NoneAfter(path, k, handlers);
        }
      }
    }
  }

  // ---------------------------------------------------------------- lock context

  datatype Routing<W> = Routing(deepest: Option<W>, lock: Option<W>)

  /** `hit` is what the traversal of a move returned. */
  datatype Event<W> = Press | MouseMove(hit: Option<W>) | Release

  function Route<W>(r: Routing<W>, e: Event<W>): Routing<W> {
    match e
    case Press => r.(lock := r.deepest)
    case MouseMove(hit) => r.(deepest := hit)
    case Release => r.(lock := None)
  }

  function RouteAll<W>(es: seq<Event<W>>): Routing<W> {
    if es == [] then Routing(None, None) else Route(RouteAll(es[..|es| - 1]), es[|es| - 1])
  }

  /** `p` is the latest button event. */
  predicate LatestButton<W(==)>(es: seq<Event<W>>, p: nat) {
    p < |es| && !es[p].MouseMove? && forall k :: p < k < |es| ==> es[k].MouseMove?
  }

  /** Between button events the lock does not change. */
  lemma {:induction false} MovesKeepLock<W>(es: seq<Event<W>>, n: nat)
    requires n <= |es| && forall k :: n <= k < |es| ==> es[k].MouseMove?
    ensures RouteAll(es).lock == RouteAll(es[..n]).lock
    decreases |es|
  {
    if n < |es| {
      var shorter := es[..|es| - 1];
      assert shorter[..n] == es[..n];
      MovesKeepLock(shorter, n);
    } else {
      assert es[..n] == es;
    }
  }

  /** The lock is the widget hovered deepest at the latest press if no release followed it, else nothing. */
  lemma LockIsDeepestAtLatestPress<W>(es: seq<Event<W>>, p: nat)
    requires LatestButton(es, p)
    ensures RouteAll(es).lock == if es[p].Press? then RouteAll(es[..p]).deepest else None
  {
    MovesKeepLock(es, p + 1);
    var upTo := es[..p + 1];
    assert upTo[..p] == es[..p] && upTo[|upTo| - 1] == es[p];
  }

  lemma NoButtonNoLock<W>(es: seq<Event<W>>)
    requires forall k :: 0 <= k < |es| ==> es[k].MouseMove?
    ensures RouteAll(es).lock == None
  {
    MovesKeepLock(es, 0);
    assert es[..0] == [];
  }

  /** The deepest hovered widget is what the latest move found. */
  lemma {:induction false} DeepestIsLatestHit<W>(es: seq<Event<W>>, m: nat)
    requires m < |es| && es[m].MouseMove? && forall k :: m < k < |es| ==> !es[k].MouseMove?
    ensures RouteAll(es).deepest == es[m].hit
    decreases |es|
  {
    if m < |es| - 1 {
      DeepestIsLatestHit(es[..|es| - 1], m);
    }
  }

  // ---------------------------------------------------------------- lock and hover together

  /** What the application hears of the mouse; a move says where the widgets are and where the cursor is. */
  datatype MouseEvent<W> = Pressed | Moved(move: Move<W>) | Released

  datatype Ui<W> = Ui(state: State<W>, routing: Routing<W>)

  function React<W(==)>(t: Shape<W>, u: Ui<W>, e: MouseEvent<W>): Ui<W> {
    match e
    case Pressed => u.(routing := Route(u.routing, Press))
    case Moved(move) =>
      var r := Check(t, InsideOf(move), u.state);
      Ui(r.state, Route(u.routing, MouseMove(r.hit)))
    case Released => u.(routing := Route(u.routing, Release))
  }

  function ReactAll<W(==)>(t: Shape<W>, s: State<W>, es: seq<MouseEvent<W>>): Ui<W> {
    if es == [] then Ui(s, Routing(None, None)) else React(t, ReactAll(t, s, es[..|es| - 1]), es[|es| - 1])
  }

  /** An event as the routing sees it, with what the plain search finds. */
  function Searched<W(==)>(t: Shape<W>, e: MouseEvent<W>): Event<W> {
    match e
    case Pressed => Press
    case Moved(move) => MouseMove(Hit(t, InsideOf(move)))
    case Released => Release
  }

  function SearchedAll<W(==)>(t: Shape<W>, es: seq<MouseEvent<W>>): (r: seq<Event<W>>)
    ensures |r| == |es| && forall i :: 0 <= i < |es| ==> r[i] == Searched(t, es[i])
  {
    seq(|es|, i requires 0 <= i < |es| => Searched(t, es[i]))
  }

  /** The routing is that of the plain search, whatever flags and pointers the traversals start from. */
  lemma {:induction false} RoutingIsSearched<W>(t: Shape<W>, s: State<W>, es: seq<MouseEvent<W>>)
    requires Distinct(t)
    ensures ReactAll(t, s, es).routing == RouteAll(SearchedAll(t, es))
    decreases |es|
  {
    hide Check, Hit, Distinct;
    if es != [] {
      var front, last := es[..|es| - 1], es[|es| - 1];
      RoutingIsSearched(t, s, front);
      assert SearchedAll(t, es)[..|es| - 1] == SearchedAll(t, front);
      if last.Moved? {
        CheckAgreesWithSearch(t, InsideOf(last.move), ReactAll(t, s, front).state);
      }
    }
  }

  /** The latest press, at `p`, is followed by no release, and `m` is the latest move before it, or `p` if there is
      none. */
  predicate PressedAfter<W(==)>(es: seq<MouseEvent<W>>, p: nat, m: nat) {
    && m <= p < |es| && es[p].Pressed? && (forall k :: p < k < |es| ==> es[k].Moved?)
    && (m < p ==> es[m].Moved?) && (forall k :: 0 <= k < p && (m == p || m < k) ==> !es[k].Moved?)
  }

  /** Over any moves, presses and releases: if no release has followed the latest press, the lock is the widget the
      plain search finds for the latest move before that press, and null if there was no such move. */
  lemma LockIsHitBeforePress<W>(t: Shape<W>, s: State<W>, es: seq<MouseEvent<W>>, p: nat, m: nat)
    requires Distinct(t) && PressedAfter(es, p, m)
    ensures ReactAll(t, s, es).routing.lock == if m == p then None else Hit(t, InsideOf(es[m].move))
  {
    hide Check, Hit, Distinct;
    var rs := SearchedAll(t, es);
    RoutingIsSearched(t, s, es);
    LockIsDeepestAtLatestPress(rs, p);
    if m < p {
      DeepestIsLatestHit(rs[..p], m);
    } else {
      NoMoveNoDeepest(rs[..p]);
    }
  }

  /** If there was no press, or a release has followed the latest, of whichever button, the lock is null. */
  lemma LockIsNullWithoutPress<W>(t: Shape<W>, s: State<W>, es: seq<MouseEvent<W>>)
    requires Distinct(t) && (forall p, m :: !PressedAfter(es, p, m))
    ensures ReactAll(t, s, es).routing.lock == None
  {
    hide Check, Hit, Distinct;
    var rs := SearchedAll(t, es);
    RoutingIsSearched(t, s, es);
    var p := LatestButtonEvent(es);
    if p < |es| {
      LockIsDeepestAtLatestPress(rs, p);
      if es[p].Pressed? {
        var m := LatestMoveBefore(es, p);
        assert !PressedAfter(es, p, m);
      }
    } else {
      NoButtonNoLock(rs);
    }
  }

  /** The place of the latest press or release, past the end if there is none. */
  lemma {:induction false} LatestButtonEvent<W>(es: seq<MouseEvent<W>>) returns (p: nat)
    ensures p <= |es| && (p < |es| ==> !es[p].Moved? && forall k :: p < k < |es| ==> es[k].Moved?)
    ensures p == |es| ==> forall k :: 0 <= k < |es| ==> es[k].Moved?
    decreases |es|
  {
    p := |es|;
    if es != [] {
      if es[|es| - 1].Moved? {
        var q := LatestButtonEvent(es[..|es| - 1]);
        p := if q < |es| - 1 then q else |es|;
      } else {
        p := |es| - 1;
      }
    }
  }

  lemma {:induction false} LatestMoveBefore<W>(es: seq<MouseEvent<W>>, p: nat) returns (m: nat)
    requires p <= |es|
    ensures m <= p && (m < p ==> es[m].Moved? && forall k :: m < k < p ==> !es[k].Moved?)
    ensures m == p ==> forall k :: 0 <= k < p ==> !es[k].Moved?
    decreases p
  {
    m := p;
    if p > 0 {
      if es[p - 1].Moved? {
        m := p - 1;
      } else {
        var n := LatestMoveBefore(es, p - 1);
        m := if n < p - 1 then n else p;
      }
    }
  }

  lemma {:induction false} NoMoveNoDeepest<W>(es: seq<Event<W>>)
    requires forall k :: 0 <= k < |es| ==> !es[k].MouseMove?
    ensures RouteAll(es).deepest == None
    decreases |es|
  {
    if es != [] {
      NoMoveNoDeepest(es[..|es| - 1]);
    }
  }

  // ---------------------------------------------------------------- the object

  class AppContainer {
    const root: Widget
    ghost const universe: set<Widget>
    var deepestHoveredShape: Widget?
    var lockContext: Widget?

    function State(): Routing<Widget>
      reads this
    {
      Routing(AsOption(deepestHoveredShape), AsOption(lockContext))
    }

    ghost predicate Valid()
      reads this, universe, root
    {
      && root in universe && Distinct(root.shape)
      && AllBuilt(universe) && CachesOk(universe) && ParentsOk(universe, root)
      && (deepestHoveredShape != null ==> deepestHoveredShape in Nodes(root.shape))
    }

    constructor (root: Widget, ghost universe: set<Widget>)
      requires root in universe && Distinct(root.shape)
      requires AllBuilt(universe) && CachesOk(universe) && ParentsOk(universe, root)
      ensures Valid() && this.root == root && this.universe == universe && State() == Routing(None, None)
    {
      this.root, this.universe := root, universe;
      deepestHoveredShape, lockContext := null, null;
    }

    /** `handledBy` is the widget whose handler ran. */
    method PropagateMousePressEvent() returns (handledBy: Widget?)
      requires Valid()
      modifies this
      ensures Valid() && State() == Route(old(State()), Press)
      ensures handledBy == if lockContext != null && lockContext.handlesPress then lockContext else null
    {
      lockContext := deepestHoveredShape;
      handledBy := if lockContext != null && lockContext.handlesPress then lockContext else null;
    }

    /** The traversal finds what the plain search does, and only the lock may get the event. */
    method PropagateMouseMoveEvent(cursorPos: Vector2) returns (handledBy: Widget?)
      requires Valid()
      modifies this, universe`isHovered, universe`latestHoveredShape
      ensures Valid()
      ensures State() == Route(old(State()), MouseMove(Hit(root.shape, Under(universe, cursorPos))))
      ensures StateOf(universe) == Check(root.shape, Under(universe, cursorPos), old(StateOf(universe))).state
      ensures handledBy == if lockContext != null && lockContext.handlesMove then lockContext else null
    {
      hide Check, Hit, Distinct, Nodes;
      ghost var inside, s := Under(universe, cursorPos), StateOf(universe);
      CheckAgreesWithSearch(root.shape, inside, s);
      HitIsNode(root.shape, inside);
      var deepHovered := root.CheckIfMouseOver(cursorPos, universe);
      if deepestHoveredShape != deepHovered {
        deepestHoveredShape := deepHovered;
      }
      handledBy := if lockContext != null && lockContext.handlesMove then lockContext else null;
    }

    method PropagateMouseReleaseEvent() returns (handledBy: Widget?)
      requires Valid()
      modifies this
      ensures Valid() && State() == Route(old(State()), Release)
      ensures handledBy == if old(lockContext) != null && old(lockContext).handlesRelease then old(lockContext)
        else null
    {
      handledBy := if lockContext != null && lockContext.handlesRelease then lockContext else null;
      lockContext := null;
    }

    /** A scroll reaches the nearest ancestor-or-self of the deepest hovered widget that handles scrolls, if any. */
    method PropagateScrollEvent() returns (handledBy: Widget?)
      requires Valid()
      ensures AsOption(handledBy) ==
        if deepestHoveredShape == null then None else Nearest(PathTo(root.shape, deepestHoveredShape), ScrollHandlers())
    {
      if deepestHoveredShape == null {
        return null;
      }
      handledBy := PropagateEvent(deepestHoveredShape);
    }

    ghost function ScrollHandlers(): set<Widget> {
      set w | w in universe && w.handlesScroll
    }

    method PropagateEvent(target: Widget) returns (handledBy: Widget?)
      requires Valid() && target in Nodes(root.shape)
      ensures AsOption(handledBy) == Nearest(PathTo(root.shape, target), ScrollHandlers())
      decreases |PathTo(root.shape, target)|
    {
      NodesAreInUniverse(root, universe, target);
      PathEndsThere(root.shape, target);
      if target.handlesScroll {
        return target;
      }
      if target == root {
        assert root.Built(universe);
        assert PathTo(root.shape, root) == [root];
        assert target.parent == null;
        return null;
      }
      ParentIsNextOnPath(root, target, universe, root);
      handledBy := PropagateEvent(target.parent);
    }
  }

  lemma {:induction false} NodesAreInUniverse(top: Widget, universe: set<Widget>, w: Widget)
    requires top in universe && AllBuilt(universe) && Distinct(top.shape) && w in Nodes(top.shape)
    ensures w in universe
    decreases top.shape
  {
    assert top.Built(universe);
    if w != top {
      var i := PathThroughKid(top.shape.kids, w);
      NodesAreInUniverse(top.innerShapes[i], universe, w);
    }
  }

  lemma {:induction false} HitIsNode<W>(t: Shape<W>, inside: set<W>)
    ensures Hit(t, inside).Some? ==> Hit(t, inside).value in Nodes(t)
    decreases t, 1
  {
    if t.Box? {
      HitKidsIsNode(t.self, t.kids, inside);
    }
  }

  lemma {:induction false} HitKidsIsNode<W>(self: W, kids: seq<Shape<W>>, inside: set<W>)
    ensures HitKids(self, kids, inside).Some? ==> HitKids(self, kids, inside).value in KidNodes(kids) + {self}
    decreases kids, 0
  {
    if kids != [] {
      HitIsNode(kids[0], inside);
      HitKidsIsNode(self, kids[1..], inside);
    }
  }
}
