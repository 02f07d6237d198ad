/** The widget objects: `Hoverable` and `Container` in one class, told apart by `isContainer`, and the traversal as the
    recursive method that updates their fields. */
module Widgets {
  import opened Hover
  import opened HoverLayouts
  import opened Options
  import opened Vectors

  class Widget {
    const isContainer: bool
    const handlesScroll: bool
    const handlesPress: bool
    const handlesMove: bool
    const handlesRelease: bool

    var innerShapes: seq<Widget>
    var latestHoveredShape: Widget?
    var parent: Widget?
    var geometry: Range2D
    var isHovered: bool

    /** The subtree below this widget, as a value. */
    ghost var shape: Shape<Widget>

    constructor (isContainer: bool, handlesScroll: bool, handlesPress: bool, handlesMove: bool, handlesRelease: bool)
      ensures this.isContainer == isContainer && this.handlesScroll == handlesScroll &&
        this.handlesPress == handlesPress
      ensures this.handlesMove == handlesMove && this.handlesRelease == handlesRelease
      ensures innerShapes == [] && latestHoveredShape == null && parent == null && !isHovered
      ensures shape == (if isContainer then Box(this, []) else Leaf(this))
    {
      this.isContainer, this.handlesScroll, this.handlesPress := isContainer, handlesScroll, handlesPress;
      this.handlesMove, this.handlesRelease := handlesMove, handlesRelease;
      innerShapes, latestHoveredShape, parent, isHovered := [], null, null, false;
      geometry := Range2D(Vector2(0.0, 0.0), Vector2(0.0, 0.0));
      shape := if isContainer then Box(this, []) else Leaf(this);
    }

    /** The children spell the shape. */
    ghost predicate Built(universe: set<Widget>)
      reads this`shape, this`innerShapes, universe`shape
    {
      && shape.self == this && shape.Box? == isContainer
      && (!isContainer ==> innerShapes == [])
      && (isContainer ==>
            && |innerShapes| == |shape.kids|
            && forall i :: 0 <= i < |innerShapes| ==>
              innerShapes[i] in universe && innerShapes[i].shape == shape.kids[i])
    }

    /** The cached pointer is null, the widget itself or a child. */
    ghost predicate CacheOk()
      reads this`latestHoveredShape, this`innerShapes
    {
      latestHoveredShape == null || (isContainer && (latestHoveredShape == this || latestHoveredShape in innerShapes))
    }

    /** `_pushContaining`. Containers are filled from the leaves up: the child is complete, and nobody holds `this`
        yet. */
    method PushContaining(toBeContained: Widget, ghost universe: set<Widget>)
      requires this in universe && toBeContained in universe && isContainer
      requires AllBuilt(universe) && CachesOk(universe)
      requires this !in Nodes(toBeContained.shape)
      requires forall w :: w in universe ==> this !in w.innerShapes
      requires Distinct(shape) && Distinct(toBeContained.shape) && Nodes(toBeContained.shape) !! KidNodes(shape.kids)
      modifies this`innerShapes, this`shape, toBeContained`parent
      ensures AllBuilt(universe) && CachesOk(universe) && Distinct(shape)
      ensures innerShapes == old(innerShapes) + [toBeContained] && toBeContained.parent == this
      ensures shape == Box(this, old(shape).kids + [toBeContained.shape])
    {
      hide Distinct, Nodes, KidNodes, DistinctKids;
      assert Built(universe) && toBeContained.Built(universe);
      WiderBox(this, shape, toBeContained.shape);
      innerShapes := innerShapes + [toBeContained];
      toBeContained.parent := this;
      shape := Box(this, shape.kids + [toBeContained.shape]);
      forall w | w in universe ensures w.Built(universe) && w.CacheOk() {
        assert old(w.Built(universe)) && old(w.CacheOk());
        assert w != this ==> w.innerShapes == old(w.innerShapes) && this !in w.innerShapes;
      }
    }

    /** `Hoverable::_checkIfMouseOver`, the geometry test. */
    method CheckGeometry(cursorPos: Vector2, ghost universe: set<Widget>)
      requires this in universe
      modifies this`isHovered
      ensures isHovered <==> this in Under(universe, cursorPos)
      ensures StateOf(universe) == Mark(old(StateOf(universe)), this, Under(universe, cursorPos))
    {
      ghost var s := StateOf(universe);
      var hovered := Contains(geometry, cursorPos);
      if isHovered != hovered {
        isHovered := hovered;
      }
      assert StateOf(universe).hovered == if hovered then s.hovered + {this} else s.hovered - {this};
    }

    method UpdateLatestHoveredShape(hoverable: Widget?, ghost universe: set<Widget>)
      requires this in universe && isContainer && CachesOk(universe)
      requires hoverable == null || hoverable == this || hoverable in innerShapes
      modifies this`latestHoveredShape
      ensures CachesOk(universe)
      ensures StateOf(universe) ==
        if hoverable == null then ClearLatest(old(StateOf(universe)), this)
          else SetLatest(old(StateOf(universe)), this, hoverable)
    {
      ghost var s := StateOf(universe);
      if latestHoveredShape != hoverable {
        latestHoveredShape := hoverable;
      }
      assert StateOf(universe).hovered == s.hovered;
      assert forall w :: w in universe ==> old(w.CacheOk());
    }

    /** The traversal: it changes the state of the whole universe of widgets as `Check` does, and returns its hit. */
    method CheckIfMouseOver(cursorPos: Vector2, ghost universe: set<Widget>) returns (hit: Widget?)
      requires this in universe && AllBuilt(universe) && CachesOk(universe)
      modifies universe`isHovered, universe`latestHoveredShape
      ensures CachesOk(universe)
      ensures StateOf(universe) == Check(shape, Under(universe, cursorPos), old(StateOf(universe))).state
      ensures AsOption(hit) == Check(shape, Under(universe, cursorPos), old(StateOf(universe))).hit
      decreases shape, 1
    {
      hide Scan, CheckCached, Mark, SetLatest, ClearLatest;
      assert Built(universe);
      if !isContainer {
        CheckGeometry(cursorPos, universe);
        return if isHovered then this else null;
      }
      var deepestLatest := CheckCachedChild(cursorPos, universe);
      CheckGeometry(cursorPos, universe);
      if !isHovered {
        UpdateLatestHoveredShape(null, universe);
        return null;
      }
      hit := ScanInnerShapes(cursorPos, deepestLatest, universe);
    }

    /** The call on the cached child. */
    method CheckCachedChild(cursorPos: Vector2, ghost universe: set<Widget>) returns (deepestLatest: Widget?)
      requires this in universe && isContainer && AllBuilt(universe) && CachesOk(universe)
      modifies universe`isHovered, universe`latestHoveredShape
      ensures CachesOk(universe)
      ensures StateOf(universe) ==
        CheckCached(this, shape.kids, Under(universe, cursorPos), old(StateOf(universe))).state
      ensures AsOption(deepestLatest) ==
        CheckCached(this, shape.kids, Under(universe, cursorPos), old(StateOf(universe))).hit
      decreases shape, 0
    {
      hide Check;
      assert Built(universe) && CacheOk();
      deepestLatest := null;
      if latestHoveredShape != null && latestHoveredShape != this {
        ghost var i :| 0 <= i < |innerShapes| && innerShapes[i] == latestHoveredShape;
        assert forall j :: 0 <= j < |innerShapes| ==> innerShapes[j].Built(universe);
        CachedAt(this, shape.kids, Under(universe, cursorPos), StateOf(universe), i);
        deepestLatest := latestHoveredShape.CheckIfMouseOver(cursorPos, universe);
      }
    }

    /** The loop over the children. */
    method ScanInnerShapes(cursorPos: Vector2, deepestLatest: Widget?, ghost universe: set<Widget>)
      returns (hit: Widget?)
      requires this in universe && isContainer && AllBuilt(universe) && CachesOk(universe)
      modifies universe`isHovered, universe`latestHoveredShape
      ensures CachesOk(universe)
      ensures StateOf(universe) ==
        Scan(this, shape.kids, Under(universe, cursorPos), old(StateOf(universe)), AsOption(deepestLatest)).state
      ensures AsOption(hit) ==
        Scan(this, shape.kids, Under(universe, cursorPos), old(StateOf(universe)), AsOption(deepestLatest)).hit
      decreases shape, 0
    {
      hide Check, CheckCached, Scan, Mark, SetLatest, Under;
      ghost var inside, s0, d := Under(universe, cursorPos), StateOf(universe), AsOption(deepestLatest);
      assert Built(universe) && shape.kids[0..] == shape.kids;
      for i := 0 to |innerShapes|
        invariant CachesOk(universe)
        invariant Scan(this, shape.kids, inside, s0, d) == Scan(this, shape.kids[i..], inside, StateOf(universe), d)
      {
        var innerShape := innerShapes[i];
        assert innerShape.Built(universe);
        ScanStep(this, shape.kids, i, inside, StateOf(universe), d);
        if innerShape == latestHoveredShape && innerShape.isHovered {
          return deepestLatest;
        }
        var deeperHovered := innerShape.CheckIfMouseOver(cursorPos, universe);
        if innerShape.isHovered {
          UpdateLatestHoveredShape(innerShape, universe);
          return deeperHovered;
        }
      }
      ScanEnd(this, inside, StateOf(universe), d);
      assert shape.kids[|innerShapes|..] == [];
      UpdateLatestHoveredShape(this, universe);
      return this;
    }
  }

  /** One turn of the loop. */
  lemma ScanStep(self: Widget, kids: seq<Shape<Widget>>, i: nat, inside: set<Widget>, s: State<Widget>,
    d: Option<Widget>)
    requires i < |kids|
    ensures var r := Check(kids[i], inside, s);
      Scan(self, kids[i..], inside, s, d) ==
        if self in s.latest && s.latest[self] == kids[i].self && kids[i].self in s.hovered then Outcome(s, d)
        else if kids[i].self in r.state.hovered then Outcome(SetLatest(r.state, self, kids[i].self), r.hit)
        else Scan(self, kids[i + 1..], inside, r.state, d)
  {
    hide Check, SetLatest;
    assert kids[i..][1..] == kids[i + 1..];
  }

  lemma ScanEnd(self: Widget, inside: set<Widget>, s: State<Widget>, d: Option<Widget>)
    ensures Scan(self, [], inside, s, d) == Outcome(SetLatest(s, self, self), Some(self))
  {
  }

  /** Which child the cached pointer stands for. */
  lemma {:induction false} CachedAt(self: Widget, kids: seq<Shape<Widget>>, inside: set<Widget>,
    s: State<Widget>, i: nat)
    requires i < |kids| && self in s.latest && s.latest[self] != self && kids[i].self == s.latest[self]
    requires forall j :: 0 <= j < |kids| && kids[j].self == kids[i].self ==> kids[j] == kids[i]
    ensures CheckCached(self, kids, inside, s) == Check(kids[i], inside, s)
    decreases i
  {
    if kids[0].self != s.latest[self] {
      assert kids[1..][i - 1] == kids[i];
      CachedAt(self, kids[1..], inside, s, i - 1);
    }
  }

  lemma WiderBox(w: Widget, box: Shape<Widget>, t: Shape<Widget>)
    requires box.Box? && box.self == w && Distinct(box) && Distinct(t)
    requires w !in Nodes(t) && Nodes(t) !! KidNodes(box.kids)
    ensures Distinct(Box(w, box.kids + [t]))
  {
    DistinctAppend(box.kids, t);
  }

  function AsOption(w: Widget?): Option<Widget> {
    if w == null then None else Some(w)
  }

  ghost predicate AllBuilt(universe: set<Widget>)
    reads universe`shape, universe`innerShapes
  {
    forall w :: w in universe ==> w.Built(universe)
  }

  ghost predicate CachesOk(universe: set<Widget>)
    reads universe`latestHoveredShape, universe`innerShapes
  {
    forall w :: w in universe ==> w.CacheOk()
  }

  /** The hover state of a universe of widgets. */
  ghost function StateOf(universe: set<Widget>): State<Widget>
    reads universe`isHovered, universe`latestHoveredShape
  {
    State(set w | w in universe && w.isHovered,
          map w | w in universe && w.latestHoveredShape != null :: w.latestHoveredShape)
  }

  /** The widgets under a cursor. */
  ghost function Under(universe: set<Widget>, cursorPos: Vector2): set<Widget>
    reads universe`geometry
  {
    set w | w in universe && Contains(w.geometry, cursorPos)
  }

  lemma {:induction false} KidNodesAppend(kids: seq<Shape<Widget>>, t: Shape<Widget>)
    ensures KidNodes(kids + [t]) == KidNodes(kids) + Nodes(t)
    decreases kids
  {
    if kids == [] {
      assert [t][1..] == [] && kids + [t] == [t];
    } else {
      assert (kids + [t])[1..] == kids[1..] + [t];
      KidNodesAppend(kids[1..], t);
    }
  }

  lemma {:induction false} DistinctAppend(kids: seq<Shape<Widget>>, t: Shape<Widget>)
    requires DistinctKids(kids) && Distinct(t) && Nodes(t) !! KidNodes(kids)
    ensures DistinctKids(kids + [t]) && KidNodes(kids + [t]) == KidNodes(kids) + Nodes(t)
    decreases kids
  {
    KidNodesAppend(kids, t);
    if kids == [] {
      assert [t][1..] == [] && kids + [t] == [t];
    } else {
      assert (kids + [t])[1..] == kids[1..] + [t];
      DistinctAppend(kids[1..], t);
      KidNodesAppend(kids[1..], t);
    }
  }
}
