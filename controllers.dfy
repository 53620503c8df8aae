/**
 * FCDController and FCDMorphController: a controller is either a skin or a
 * morph; its base target is the skin's target or the morph's base target,
 * and following base targets through chained controllers leads to the
 * base geometry. A morph controller keeps only morph targets whose geometry
 * is similar (same kind, same vertex count) to its base geometry.
 *
 * The source walks controller chains with unguarded loops, so every walk
 * here takes a ghost set `world` of the controllers it may pass through
 * and a ghost bound `n` on its length, and the walks demand that the chain
 * leaves the controllers within `n` steps inside `world`.
 */
module Controllers {
  import opened Common

  /**
   * What IsSimilar looks at in a geometry: a mesh and the number of values
   * of its position source, if it has one; a spline and its total CV count;
   * or neither.
   */
  datatype Shape = Mesh(positions: Option<nat>) | Spline(cvCount: nat) | NoShape

  class Geometry {
    const shape: Shape
    /** Set when the geometry object is released; the model keeps the object so a dangling reference shows. */
    var released: bool

    constructor (shape: Shape)
      ensures this.shape == shape && !released
    {
      this.shape := shape;
      released := false;
    }
  }

  /** An FCDEntity pointer as the chain walk sees it: null, a geometry, a controller or any other entity. */
  datatype EntityRef = NoEntity | GeometryRef(g: Geometry) | ControllerRef(c: Controller) | OtherEntity

  function RefOf(g: Geometry?): (r: EntityRef)
    ensures g == null <==> r == NoEntity
    ensures g != null ==> r == GeometryRef(g)
  {
    if g == null then NoEntity else GeometryRef(g)
  }

  class SkinController {
    const parent: Controller
    /** FCDSkinController::GetTarget; the skin's own setters are not part of this model. */
    var target: EntityRef

    constructor (parent: Controller)
      ensures this.parent == parent && target == NoEntity
    {
      this.parent := parent;
      target := NoEntity;
    }
  }

  class Controller {
    var skin: SkinController?
    var morph: MorphController?

    /** A new controller is neither a skin nor a morph. */
    constructor ()
      ensures skin == null && morph == null
    {
      skin := null;
      morph := null;
    }

    /** The skin part, if the controller is a skin. */
    function SkinPart(): (r: set<SkinController>)
      reads `skin
      ensures r == if skin == null then {} else {skin}
    {
      if skin == null then {} else {skin}
    }

    /** The morph part, if the controller is a morph. */
    function MorphPart(): (r: set<MorphController>)
      reads `morph
      ensures r == if morph == null then {} else {morph}
    {
      if morph == null then {} else {morph}
    }

    /** Skin and morph are mutually exclusive. */
    predicate Exclusive()
      reads this
    {
      skin == null || morph == null
    }

    /** FCDController::GetBaseTarget: the skin's target, else the morph's base target, else null. */
    function BaseTarget(): (r: EntityRef)
      reads `skin, `morph, SkinPart()`target, MorphPart()`baseTarget
      ensures skin != null ==> r == skin.target
      ensures skin == null && morph != null ==> r == morph.baseTarget
      ensures r != NoEntity ==> skin != null || morph != null
    {
      if skin != null then skin.target
      else if morph != null then morph.baseTarget
      else NoEntity
    }

    /** CreateSkinController: drops any morph and installs a new skin with no target. */
    method CreateSkinController() returns (s: SkinController)
      modifies `skin, `morph
      ensures fresh(s) && skin == s && morph == null && s.parent == this
      ensures Exclusive() && BaseTarget() == NoEntity
    {
      morph := null;
      s := new SkinController(this);
      skin := s;
    }

    /** CreateMorphController: drops any skin and installs a new morph with no base target and no targets. */
    method CreateMorphController() returns (m: MorphController)
      modifies `skin, `morph
      ensures fresh(m) && morph == m && skin == null && m.parent == this
      ensures m.morphTargets == [] && Exclusive() && BaseTarget() == NoEntity
    {
      skin := null;
      m := new MorphController(this);
      morph := m;
    }

    /** GetBaseGeometry: the geometry the base-target chain ends at, or null. */
    method GetBaseGeometry(ghost world: World, ghost n: nat) returns (r: Geometry?)
      requires Ends(BaseTarget(), n, world)
      ensures r == Resolve(BaseTarget(), n, world)
    {
      var base := BaseTarget();
      ghost var k := n;
      while base.ControllerRef?
        invariant Walk(base, k, world) == Walk(BaseTarget(), n, world)
        decreases k
      {
        base := base.c.BaseTarget();
        k := k - 1;
      }
      if base.GeometryRef? {
        return base.g;
      }
      return null;
    }

    /**
     * GetBaseGeometryController: the last controller on the chain, the one
     * whose base target is the base geometry (this controller when its own
     * base target is a geometry), or null when the chain ends elsewhere.
     */
    method GetBaseGeometryController(ghost world: World, ghost n: nat) returns (r: Controller?)
      requires Ends(BaseTarget(), n, world)
      ensures (r != null) == (Resolve(BaseTarget(), n, world) != null)
      ensures r != null ==> r.BaseTarget() == GeometryRef(Resolve(BaseTarget(), n, world))
      ensures r == BaseGeometryController(this, n, world)
    {
      var parentBase := this;
      var base := BaseTarget();
      ghost var k := n;
      while base.ControllerRef?
        invariant Walk(base, k, world) == Walk(BaseTarget(), n, world)
        invariant parentBase.BaseTarget() == base
        invariant LastController(parentBase, base, k, world) == LastController(this, BaseTarget(), n, world)
        decreases k
      {
        parentBase := base.c;
        base := base.c.BaseTarget();
        k := k - 1;
      }
      if base.GeometryRef? {
        return parentBase;
      }
      return null;
    }
  }

  /**
   * The objects a chain walk may pass through: controllers and the skin and
   * morph parts whose base targets it reads.
   */
  datatype World = World(controllers: set<Controller>, skins: set<SkinController>, morphs: set<MorphController>)

  /** `c` is a controller of `world` whose current part is in `world` too, so the walk may step through it. */
  predicate Holds(world: World, c: Controller)
    reads world.controllers`skin, world.controllers`morph
  {
    && c in world.controllers
    && (c.skin != null ==> c.skin in world.skins)
    && (c.morph != null ==> c.morph in world.morphs)
  }

  /** The entity reached after at most `n` steps from `e`, stepping only through controllers of `world`. */
  function Walk(e: EntityRef, n: nat, world: World): EntityRef
    reads world.controllers`skin, world.controllers`morph, world.skins`target, world.morphs`baseTarget
    decreases n
  {
    if n == 0 then e
    else match e
      case ControllerRef(c) => if Holds(world, c) then Walk(c.BaseTarget(), n - 1, world) else e
      case _ => e
  }

  /** The chain from `e` leaves the controllers within `n` steps through `world`. */
  predicate Ends(e: EntityRef, n: nat, world: World)
    reads world.controllers`skin, world.controllers`morph, world.skins`target, world.morphs`baseTarget
  {
    !Walk(e, n, world).ControllerRef?
  }

  /** The geometry at the end of the chain from `e`, or null when it ends elsewhere. */
  function Resolve(e: EntityRef, n: nat, world: World): Geometry?
    reads world.controllers`skin, world.controllers`morph, world.skins`target, world.morphs`baseTarget
  {
    var end := Walk(e, n, world);
    if end.GeometryRef? then end.g else null
  }

  /** Once a chain has ended, a longer bound walks to the same place. */
  lemma {:induction false} WalkSettles(e: EntityRef, n: nat, m: nat, world: World)
    requires Ends(e, n, world) && n <= m
    ensures Walk(e, m, world) == Walk(e, n, world)
    decreases n
  {
    if n > 0 && e.ControllerRef? && Holds(world, e.c) {
      WalkSettles(e.c.BaseTarget(), n - 1, m - 1, world);
    }
  }

  /** Walking from a controller is walking from its base target, one step shorter. */
  lemma ControllerStep(c: Controller, n: nat, world: World)
    requires Ends(ControllerRef(c), n, world)
    ensures n > 0 && Holds(world, c)
    ensures Ends(c.BaseTarget(), n, world)
    ensures Resolve(ControllerRef(c), n, world) == Resolve(c.BaseTarget(), n, world)
  {
    WalkSettles(c.BaseTarget(), n - 1, n, world);
  }

  /**
   * The controller GetBaseGeometryController answers is the one whose
   * base target the chain ends at, and it answers exactly when
   * GetBaseGeometry does.
   */
  function BaseGeometryController(c: Controller, n: nat, world: World): (r: Controller?)
    reads c`skin, c`morph, c.SkinPart()`target, c.MorphPart()`baseTarget
    reads world.controllers`skin, world.controllers`morph, world.skins`target, world.morphs`baseTarget
    requires Ends(c.BaseTarget(), n, world)
    ensures (r != null) == (Resolve(c.BaseTarget(), n, world) != null)
    ensures r != null ==> r.BaseTarget() == GeometryRef(Resolve(c.BaseTarget(), n, world))
    ensures c.BaseTarget().GeometryRef? ==> r == c
  {
    LastControllerTargetsEnd(c, c.BaseTarget(), n, world);
    if Resolve(c.BaseTarget(), n, world) != null then LastController(c, c.BaseTarget(), n, world) else null
  }

  /** The last controller passed on the walk from `e`, starting from `prev`. */
  function LastController(prev: Controller, e: EntityRef, n: nat, world: World): Controller
    reads world.controllers`skin, world.controllers`morph, world.skins`target, world.morphs`baseTarget
    decreases n
  {
    if n == 0 then prev
    else match e
      case ControllerRef(c) => if Holds(world, c) then LastController(c, c.BaseTarget(), n - 1, world) else prev
      case _ => prev
  }

  lemma {:induction false} LastControllerTargetsEnd(prev: Controller, e: EntityRef, n: nat, world: World)
    requires prev.BaseTarget() == e
    requires Ends(e, n, world)
    ensures LastController(prev, e, n, world).BaseTarget() == Walk(e, n, world)
    decreases n
  {
    if n > 0 && e.ControllerRef? && Holds(world, e.c) {
      LastControllerTargetsEnd(e.c, e.c.BaseTarget(), n - 1, world);
    }
  }

  // ---------------------------------------------------------------------
  // Similarity (FCDMorphController::IsSimilar)
  // ---------------------------------------------------------------------

  /** The vertex count of a shape as IsSimilar reads it for the base: 0 for a mesh without positions. */
  function BaseVertexCount(s: Shape): nat
  {
    match s
    case Mesh(positions) => if positions.Some? then positions.value else 0
    case Spline(cvs) => cvs
    case NoShape => 0
  }

  /**
   * A shape is similar to a base shape when both are meshes, the compared
   * mesh has a position source, and the counts agree; or when both are
   * splines with the same total CV count.
   */
  predicate ShapesSimilar(base: Shape, other: Shape)
  {
    || (base.Mesh? && other.Mesh? && other.positions.Some? && BaseVertexCount(base) == other.positions.value)
    || (base.Spline? && other.Spline? && base.cvCount == other.cvCount)
  }

  predicate Similar(base: Geometry?, other: Geometry?)
  {
    base != null && other != null && ShapesSimilar(base.shape, other.shape)
  }

  /**
   * Similarity is not symmetric: a base mesh without a position source
   * counts as 0 vertices and accepts a mesh with an empty position source,
   * but not the other way round.
   */
  lemma SimilarityIsNotSymmetric()
    ensures ShapesSimilar(Mesh(None), Mesh(Some(0)))
    ensures !ShapesSimilar(Mesh(Some(0)), Mesh(None))
  {
  }

  /** Between shapes that have their counts, similarity is an equivalence. */
  lemma SimilarityOnCountedShapes(a: Shape, b: Shape, c: Shape)
    requires a.Mesh? ==> a.positions.Some?
    requires b.Mesh? ==> b.positions.Some?
    ensures ShapesSimilar(a, b) == ShapesSimilar(b, a)
    ensures ShapesSimilar(a, b) && ShapesSimilar(b, c) ==> ShapesSimilar(a, c)
    ensures a != NoShape ==> ShapesSimilar(a, a)
  {
  }

  // ---------------------------------------------------------------------
  // Morph controllers and targets
  // ---------------------------------------------------------------------

  /** The geometries `ts` currently hold, in order. */
  function GeometriesOf(ts: seq<MorphTarget>): (r: seq<Geometry?>)
    reads ts
    ensures |r| == |ts| && forall k :: 0 <= k < |ts| ==> r[k] == ts[k].geometry
  {
    seq(|ts|, k requires 0 <= k < |ts| reads ts => ts[k].geometry)
  }

  /** The targets among `ts`, in order, whose geometry (the matching entry of `geometries`) is similar to `base`. */
  function Kept(ts: seq<MorphTarget>, geometries: seq<Geometry?>, base: Geometry?): (r: seq<MorphTarget>)
    requires |geometries| == |ts|
    ensures |r| <= |ts|
  {
    if ts == [] then []
    else
      var k := |ts| - 1;
      Kept(ts[..k], geometries[..k], base) + (if Similar(base, geometries[k]) then [ts[k]] else [])
  }

  lemma KeptSnoc(ts: seq<MorphTarget>, geometries: seq<Geometry?>, t: MorphTarget, g: Geometry?, base: Geometry?)
    requires |geometries| == |ts|
    ensures Kept(ts + [t], geometries + [g], base) == Kept(ts, geometries, base) + (if Similar(base, g) then [t] else [])
  {
    assert (ts + [t])[..|ts|] == ts;
    assert (geometries + [g])[..|ts|] == geometries;
  }

  /**
   * One step of the filter loop: with the first `j` originals filtered
   * into `ts[..i]` and the rest still in `ts[i..]`, keeping or dropping
   * `ts[i]` according to the similarity of its geometry filters one more.
   */
  lemma FilterStep(original: seq<MorphTarget>, geometries: seq<Geometry?>, j: nat, ts: seq<MorphTarget>, i: nat, base: Geometry?)
    requires |geometries| == |original| && j < |original| && i < |ts|
    requires ts[..i] == Kept(original[..j], geometries[..j], base) && ts[i..] == original[j..]
    ensures ts[i] == original[j]
    ensures Similar(base, geometries[j]) ==>
      ts[..i + 1] == Kept(original[..j + 1], geometries[..j + 1], base) && ts[i + 1..] == original[j + 1..]
    ensures !Similar(base, geometries[j]) ==>
      var rest := ts[..i] + ts[i + 1..];
      rest[..i] == Kept(original[..j + 1], geometries[..j + 1], base) && rest[i..] == original[j + 1..]
  {
    var t := original[j];
    assert ts[i] == t by { assert ts[i..][0] == original[j..][0]; }
    assert original[..j + 1] == original[..j] + [t];
    assert geometries[..j + 1] == geometries[..j] + [geometries[j]];
    KeptSnoc(original[..j], geometries[..j], t, geometries[j], base);
    assert ts[..i + 1] == ts[..i] + [t];
    assert ts[i + 1..] == ts[i..][1..];
    assert original[j + 1..] == original[j..][1..];
  }

  /** Kept keeps exactly the similar targets: each kept one comes from a similar entry, each similar entry is kept. */
  lemma {:induction false} KeptSelects(ts: seq<MorphTarget>, geometries: seq<Geometry?>, base: Geometry?)
    requires |geometries| == |ts|
    ensures forall x :: x in Kept(ts, geometries, base) ==> exists k :: 0 <= k < |ts| && ts[k] == x && Similar(base, geometries[k])
    ensures forall k :: 0 <= k < |ts| && Similar(base, geometries[k]) ==> ts[k] in Kept(ts, geometries, base)
  {
    if ts != [] {
      var k := |ts| - 1;
      KeptSelects(ts[..k], geometries[..k], base);
      assert ts == ts[..k] + [ts[k]];
      assert geometries == geometries[..k] + [geometries[k]];
      KeptSnoc(ts[..k], geometries[..k], ts[k], geometries[k], base);
    }
  }

  /** A geometry, or null, resolves to itself in any number of steps. */
  lemma ResolveGeometry(g: Geometry?, n: nat, world: World)
    ensures Ends(RefOf(g), n, world) && Resolve(RefOf(g), n, world) == g
  {
  }

  class MorphController {
    const parent: Controller
    var baseTarget: EntityRef
    var morphTargets: seq<MorphTarget>

    /** A new morph controller has no base target and no targets. */
    constructor (parent: Controller)
      ensures this.parent == parent && baseTarget == NoEntity && morphTargets == []
    {
      this.parent := parent;
      baseTarget := NoEntity;
      morphTargets := [];
    }

    /**
     * The base geometry through `base`: the entity itself when it is a
     * geometry, the end of its chain when it is a controller.
     */
    static method ResolveEntity(e: EntityRef, ghost world: World, ghost n: nat) returns (g: Geometry?)
      requires Ends(e, n, world)
      ensures g == Resolve(e, n, world)
    {
      if e.ControllerRef? {
        ControllerStep(e.c, n, world);
        g := e.c.GetBaseGeometry(world, n);
      } else if e.GeometryRef? {
        g := e.g;
        assert Walk(e, n, world) == e;
      } else {
        g := null;
        assert Walk(e, n, world) == e;
      }
    }

    /** IsSimilar: whether `entity` resolves to a geometry similar to the base target's. */
    method IsSimilar(entity: EntityRef, ghost world: World, ghost n: nat) returns (similar: bool)
      requires Ends(baseTarget, n, world) && Ends(entity, n, world)
      ensures similar == Similar(Resolve(baseTarget, n, world), Resolve(entity, n, world))
      ensures entity == NoEntity || baseTarget == NoEntity ==> !similar
    {
      similar := false;
      if entity != NoEntity && baseTarget != NoEntity {
        var vertexCount := 0;
        var isMesh := false;
        var isSpline := false;
        var baseGeometry := ResolveEntity(baseTarget, world, n);
        if baseGeometry != null {
          match baseGeometry.shape
          case Mesh(positions) =>
            isMesh := true;
            if positions.Some? {
              vertexCount := positions.value;
            }
          case Spline(cvs) =>
            isSpline := true;
            vertexCount := cvs;
          case NoShape =>
        }
        var other := ResolveEntity(entity, world, n);
        if other != null {
          match other.shape
          case Mesh(positions) =>
            if isMesh && positions.Some? {
              similar := vertexCount == positions.value;
            }
          case Spline(cvs) =>
            if isSpline {
              similar := vertexCount == cvs;
            }
          case NoShape =>
        }
      }
    }

    /**
     * SetBaseTarget: a geometry, or a controller whose chain ends at a
     * geometry, becomes the base target and the targets no longer similar
     * to that geometry are released, the others kept in order; anything
     * else leaves no base target and no targets. The chain from `entity`
     * must not pass through this morph controller.
     */
    method SetBaseTarget(entity: EntityRef, ghost world: World, ghost n: nat)
      requires this !in world.morphs
      requires Ends(entity, n, world)
      modifies `baseTarget, `morphTargets
      ensures var base := Resolve(entity, n, world);
        base != null ==> baseTarget == entity && morphTargets == Kept(old(morphTargets), GeometriesOf(old(morphTargets)), base)
      ensures Resolve(entity, n, world) == null ==> baseTarget == NoEntity && morphTargets == []
    {
      baseTarget := NoEntity;
      var baseEntity := entity;
      if baseEntity.ControllerRef? {
        ControllerStep(baseEntity.c, n, world);
        var g := baseEntity.c.GetBaseGeometry(world, n);
        baseEntity := RefOf(g);
      }
      if baseEntity.GeometryRef? {
        baseTarget := entity;
        RemoveDissimilar(world, n);
      } else {
        morphTargets := [];
      }
    }

    /** The loop of SetBaseTarget: releases the targets not similar to the base geometry, keeping the order of the rest. */
    method RemoveDissimilar(ghost world: World, ghost n: nat)
      requires Ends(baseTarget, n, world)
      modifies `morphTargets
      ensures morphTargets == Kept(old(morphTargets), GeometriesOf(old(morphTargets)), Resolve(baseTarget, n, world))
    {
      ghost var base := Resolve(baseTarget, n, world);
      ghost var original := morphTargets;
      ghost var geometries := GeometriesOf(original);
      ghost var j := 0;
      var i := 0;
      while i < |morphTargets|
        invariant 0 <= j <= |original| && i <= |morphTargets|
        invariant morphTargets[..i] == Kept(original[..j], geometries[..j], base)
        invariant morphTargets[i..] == original[j..]
        decreases |original| - j
      {
        FilterStep(original, geometries, j, morphTargets, i, base);
        ResolveGeometry(morphTargets[i].geometry, n, world);
        var similar := IsSimilar(RefOf(morphTargets[i].geometry), world, n);
        if similar {
          i := i + 1;
        } else {
          morphTargets := morphTargets[..i] + morphTargets[i + 1..];
        }
        j := j + 1;
      }
      assert original[..j] == original && geometries[..j] == geometries;
      assert morphTargets == morphTargets[..i] + morphTargets[i..];
      assert original[..j] == original;
    }

    /**
     * AddTarget: without a base target, or for a geometry similar to it,
     * appends exactly one new target holding the geometry and the weight
     * and returns it; otherwise returns null and changes nothing.
     */
    method AddTarget(geometry: Geometry?, weight: Value, ghost world: World, ghost n: nat) returns (target: MorphTarget?)
      requires Ends(baseTarget, n, world)
      modifies `morphTargets
      ensures var accepted := baseTarget == NoEntity || Similar(Resolve(baseTarget, n, world), geometry);
        accepted ==> (target != null && fresh(target) && morphTargets == old(morphTargets) + [target]
          && target.parent == this && target.geometry == geometry && target.weight == weight)
      ensures !(baseTarget == NoEntity || Similar(Resolve(baseTarget, n, world), geometry)) ==>
        target == null && morphTargets == old(morphTargets)
    {
      target := null;
      var accepted := baseTarget == NoEntity;
      if !accepted {
        accepted := IsSimilar(RefOf(geometry), world, n);
      }
      if accepted {
        target := new MorphTarget(this);
        morphTargets := morphTargets + [target];
        target.SetGeometry(geometry, false, world, n);
        target.weight := weight;
      }
    }
  }

  class MorphTarget {
    const parent: MorphController
    var geometry: Geometry?
    var weight: Value

    /** A new target has no geometry and a zero weight. */
    constructor (parent: MorphController)
      ensures this.parent == parent && geometry == null && weight == ZeroValue
    {
      this.parent := parent;
      geometry := null;
      weight := ZeroValue;
    }

    /**
     * FCDMorphTarget::SetGeometry as written. When this target is the only
     * tracker of its current geometry (`soleTracker`), that geometry is
     * released first. The new geometry is then stored when the morph has
     * no base target or the geometry is similar to it.
     */
    method SetGeometryAsWritten(g: Geometry?, soleTracker: bool, ghost world: World, ghost n: nat)
      requires Ends(parent.baseTarget, n, world)
      modifies `geometry, (if geometry == null then {} else {geometry})`released
      ensures var accepted := parent.baseTarget == NoEntity || Similar(Resolve(parent.baseTarget, n, world), g);
        geometry == if accepted then g else if old(geometry) != null && soleTracker then null else old(geometry)
      ensures old(geometry) != null && soleTracker ==> old(geometry).released
      ensures old(geometry) != null && !soleTracker ==> old(geometry).released == old(geometry.released)
    {
      var oldGeometry := geometry;
      if oldGeometry != null && soleTracker {
        oldGeometry.released := true;
        geometry := null;
      }
      var accepted := parent.baseTarget == NoEntity;
      if !accepted {
        accepted := parent.IsSimilar(RefOf(g), world, n);
      }
      if accepted {
        geometry := g;
      }
    }

    /**
     * SetGeometry as evidently intended: the current geometry is released
     * only when it is being replaced, so a target never keeps a released
     * geometry.
     */
    method SetGeometry(g: Geometry?, soleTracker: bool, ghost world: World, ghost n: nat)
      requires Ends(parent.baseTarget, n, world)
      modifies `geometry, (if geometry == null then {} else {geometry})`released
      ensures var accepted := parent.baseTarget == NoEntity || Similar(Resolve(parent.baseTarget, n, world), g);
        geometry == if accepted then g
          else if old(geometry) != null && old(geometry) != g && soleTracker then null else old(geometry)
      ensures old(geometry) != null && old(geometry) != g && soleTracker ==> old(geometry).released
      ensures old(geometry) != null && !(old(geometry) != g && soleTracker) ==>
        old(geometry).released == old(geometry.released)
      ensures g != null && !old(g.released) && (old(geometry) != null ==> !old(geometry.released)) ==>
        geometry != null ==> !geometry.released
    {
      var oldGeometry := geometry;
      if oldGeometry != null && oldGeometry != g && soleTracker {
        oldGeometry.released := true;
        geometry := null;
      }
      var accepted := parent.baseTarget == NoEntity;
      if !accepted {
        accepted := parent.IsSimilar(RefOf(g), world, n);
      }
      if accepted {
        geometry := g;
      }
    }
  }

  /**
   * SetGeometry as written stores a released geometry: a target that is
   * the only tracker of its geometry, given that same geometry again,
   * releases it and then keeps the released object.
   */
  method SameGeometryIsReleasedAndKept() returns (target: MorphTarget, g: Geometry)
    ensures target.geometry == g && g.released
  {
    var controller := new Controller();
    var morph := controller.CreateMorphController();
    g := new Geometry(Mesh(Some(3)));
    target := new MorphTarget(morph);
    target.SetGeometryAsWritten(g, false, World({}, {}, {}), 0);
    target.SetGeometryAsWritten(g, true, World({}, {}, {}), 0);
  }
}
