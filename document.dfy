/**
 * The document registry (FCDocument): the entity libraries, the
 * visual-scene root and physics-scene root references, the layers and the
 * set of registered animated values.
 */
module Documents {
  import opened Common
  import opened Entities
  import opened DocumentLibraries
  import opened EntityReferences
  import ExtraTree

  /** An animated value; the registry only looks at how many values it animates. */
  class Animated {
    const valueCount: nat
    /** Set when the value is released. */
    var released: bool

    constructor (valueCount: nat)
      ensures this.valueCount == valueCount && !released
    {
      this.valueCount := valueCount;
      released := false;
    }
  }

  /** A named layer of scene objects. */
  class Layer {
    var name: string

    constructor ()
      ensures name == ""
    {
      name := "";
    }
  }

  /** The position of the first layer called `name`, or |ls|. */
  function FirstLayerNamed(ls: seq<Layer>, name: string): (r: nat)
    reads set l | l in ls
    ensures r <= |ls|
    ensures forall j :: 0 <= j < r ==> ls[j].name != name
    ensures r < |ls| ==> ls[r].name == name
  {
    if ls == [] then 0
    else if ls[0].name == name then 0
    else 1 + FirstLayerNamed(ls[1..], name)
  }

  /** The position of `l` in `ls`, or |ls|. */
  function LayerIndex(ls: seq<Layer>, l: Layer): (r: nat)
    ensures r <= |ls|
    ensures forall j :: 0 <= j < r ==> ls[j] != l
    ensures r < |ls| ==> ls[r] == l
  {
    if ls == [] then 0
    else if ls[0] == l then 0
    else 1 + LayerIndex(ls[1..], l)
  }

  predicate DistinctLayers(ls: seq<Layer>)
  {
    forall i, j :: 0 <= i < j < |ls| ==> ls[i] != ls[j]
  }

  class Document {
    const id: DocumentId
    const manager: ReferenceManager
    const asset: Asset
    const extra: ExtraTree.Extra
    const visualSceneRoot: EntityReference
    var physicsSceneRoots: seq<EntityReference>
    var libraries: Libraries
    var layers: seq<Layer>
    var animatedValues: set<Animated>

    /** The root references belong to this document and are known to its manager. */
    ghost predicate Registered()
      reads `physicsSceneRoots, manager`refs
    {
      && visualSceneRoot in manager.refs
      && visualSceneRoot.document == id && visualSceneRoot.manager == manager
      && (forall r :: r in physicsSceneRoots ==> r in manager.refs && r.document == id && r.manager == manager)
    }

    /**
     * The root references are registered, the manager's placeholders agree
     * with their dependents, and no layer is listed twice.
     */
    ghost predicate Valid()
      reads `physicsSceneRoots, `layers, manager`placeHolders, manager`refs, manager.placeHolders`references,
        manager.refs`placeHolder
    {
      manager.Consistent() && Registered() && DistinctLayers(layers)
    }

    /**
     * A new document: empty libraries, layers and animated values, no
     * physics-scene roots, and a visual-scene root that points nowhere.
     */
    constructor (id: DocumentId)
      ensures Valid() && manager.Live() && fresh(manager)
      ensures this.id == id
      ensures libraries == NoLibraries && layers == [] && animatedValues == {} && physicsSceneRoots == []
      ensures fresh(visualSceneRoot) && visualSceneRoot.entity == null && visualSceneRoot.placeHolder == null
      ensures visualSceneRoot.entityId == ""
      ensures manager.placeHolders == [] && manager.refs == {visualSceneRoot}
      ensures extra.Valid() && extra.Contents == [ExtraTree.TypeValue("", [])]
    {
      this.id := id;
      var m := new ReferenceManager();
      manager := m;
      asset := new Asset();
      extra := new ExtraTree.Extra();
      visualSceneRoot := new EntityReference(id, m);
      physicsSceneRoots := [];
      libraries := NoLibraries;
      layers := [];
      animatedValues := {};
    }

    /**
     * Lists `animated`, unless it animates no value: then it is released
     * and not listed.
     */
    method RegisterAnimatedValue(animated: Animated)
      modifies `animatedValues, animated`released
      ensures animated.valueCount == 0 ==> animated.released && animatedValues == old(animatedValues)
      ensures animated.valueCount != 0 ==>
        animatedValues == old(animatedValues) + {animated} && animated.released == old(animated.released)
    {
      if animated.valueCount == 0 {
        animated.released := true;
        return;
      }
      animatedValues := animatedValues + {animated};
    }

    /** Removes `animated` from the list; null or unlisted values change nothing. */
    method UnregisterAnimatedValue(animated: Animated?)
      modifies `animatedValues
      ensures animated == null ==> animatedValues == old(animatedValues)
      ensures animated != null ==> animatedValues == old(animatedValues) - {animated}
    {
      if animated != null {
        if animated in animatedValues {
          animatedValues := animatedValues - {animated};
        }
      }
    }

    /** Appends a new, unnamed layer. */
    method AddLayer() returns (layer: Layer)
      requires Valid()
      modifies `layers
      ensures Valid()
      ensures fresh(layer) && layer.name == "" && layers == old(layers) + [layer]
    {
      layer := new Layer();
      layers := layers + [layer];
    }

    /** The first layer called `name`, or null. */
    function FindLayer(name: string): (r: Layer?)
      reads this, set l | l in layers
      ensures r == null <==> forall l :: l in layers ==> l.name != name
      ensures r != null ==> r in layers && r.name == name
      ensures r != null ==> forall j :: 0 <= j < LayerIndex(layers, r) ==> layers[j].name != name
    {
      var k := FirstLayerNamed(layers, name);
      if k < |layers| then layers[k] else null
    }

    /** Removes `layer` from the document; a layer it does not hold changes nothing. */
    method ReleaseLayer(layer: Layer)
      requires Valid()
      modifies `layers
      ensures Valid()
      ensures layer !in layers
      ensures layer in old(layers) ==>
        var k := LayerIndex(old(layers), layer); layers == old(layers)[..k] + old(layers)[k + 1..]
      ensures layer !in old(layers) ==> layers == old(layers)
    {
      var k := LayerIndex(layers, layer);
      if k < |layers| {
        layers := layers[..k] + layers[k + 1..];
      }
    }

    /** Appends a new physics-scene root reference that points nowhere. */
    method AddPhysicsSceneInstanceReference() returns (r: EntityReference)
      requires Valid()
      modifies `physicsSceneRoots, manager`refs
      ensures Valid() && (old(manager.Live()) ==> manager.Live())
      ensures fresh(r) && r.entity == null && r.entityId == "" && r.placeHolder == null
      ensures physicsSceneRoots == old(physicsSceneRoots) + [r]
    {
      r := new EntityReference(id, manager);
      physicsSceneRoots := physicsSceneRoots + [r];
    }

    /** Appends a physics-scene root reference to `scene`. */
    method AddPhysicsSceneInstance(scene: Entity, urlOf: DocumentId -> string) returns (r: EntityReference)
      requires Valid()
      modifies `physicsSceneRoots, manager`refs, manager`placeHolders, manager.placeHolders`references
      ensures Valid() && (old(manager.Live()) ==> manager.Live())
      ensures fresh(r) && physicsSceneRoots == old(physicsSceneRoots) + [r]
      ensures r.entity == scene && r.entityId == scene.daeId
      ensures scene.document == id ==> r.placeHolder == null
    {
      r := AddPhysicsSceneInstanceReference();
      r.SetEntity(scene, urlOf);
    }

    /** Creates the visual scene `newId` at the end of its library (FCDLibrary::AddEntity). */
    method NewVisualScene(newId: string) returns (scene: Entity)
      modifies `libraries
      ensures fresh(scene) && scene.kind == VisualScene && scene.document == id && scene.daeId == newId
      ensures libraries == old(libraries).(visualScenes := old(libraries.visualScenes) + [scene])
      ensures old(FindEntity(libraries, newId)) == null ==> FindEntity(libraries, newId) == scene
    {
      scene := new Entity(id, newId, VisualScene);
      libraries := libraries.(visualScenes := libraries.visualScenes + [scene]);
      if old(FindEntity(libraries, newId)) == null {
        FindEntityAfterAdd(old(libraries), libraries, 11, scene, newId);
      }
    }

    /** Creates the physics scene `newId` at the end of its library (FCDLibrary::AddEntity). */
    method NewPhysicsScene(newId: string) returns (scene: Entity)
      modifies `libraries
      ensures fresh(scene) && scene.kind == PhysicsScene && scene.document == id && scene.daeId == newId
      ensures libraries == old(libraries).(physicsScenes := old(libraries.physicsScenes) + [scene])
      ensures old(FindEntity(libraries, newId)) == null ==> FindEntity(libraries, newId) == scene
    {
      scene := new Entity(id, newId, PhysicsScene);
      libraries := libraries.(physicsScenes := libraries.physicsScenes + [scene]);
      if old(FindEntity(libraries, newId)) == null {
        FindEntityAfterAdd(old(libraries), libraries, 12, scene, newId);
      }
    }

    /** Adds a new physics scene (id `newId`) to its library and a root reference to it. */
    method AddPhysicsScene(newId: string, urlOf: DocumentId -> string) returns (scene: Entity)
      requires Valid()
      modifies `libraries, `physicsSceneRoots, manager`refs, manager`placeHolders, manager.placeHolders`references
      ensures Valid() && (old(manager.Live()) ==> manager.Live())
      ensures fresh(scene) && scene.kind == PhysicsScene && scene.document == id && scene.daeId == newId
      ensures libraries == old(libraries).(physicsScenes := old(libraries.physicsScenes) + [scene])
      ensures old(FindEntity(libraries, newId)) == null ==> FindEntity(libraries, newId) == scene
      ensures |physicsSceneRoots| == |old(physicsSceneRoots)| + 1
      ensures physicsSceneRoots[..|old(physicsSceneRoots)|] == old(physicsSceneRoots)
      ensures var r := physicsSceneRoots[|old(physicsSceneRoots)|];
        fresh(r) && r.entity == scene && r.entityId == newId && r.placeHolder == null
    {
      scene := NewPhysicsScene(newId);
      var r := AddPhysicsSceneInstance(scene, urlOf);
      assert physicsSceneRoots[..|old(physicsSceneRoots)|] == old(physicsSceneRoots);
    }

    /**
     * The libraries LoadEntity may search from this document: those of the
     * other documents in `others`, and this one's own.
     */
    function Registry(others: map<DocumentId, Libraries>): (docs: map<DocumentId, Libraries>)
      reads this
      ensures id in docs && docs[id] == libraries
      ensures forall d :: d in others ==> d in docs
    {
      others[id := libraries]
    }

    /** Resolving `r` can reach only documents of `others` or this one. */
    ghost predicate Resolvable(r: EntityReference, loaded: Option<DocumentId>, others: map<DocumentId, Libraries>)
      reads r, r.placeHolder
    {
      && r.document == id
      && (r.placeHolder != null && r.placeHolder.target.Some? ==>
            r.placeHolder.target.value in others || r.placeHolder.target.value == id)
      && (loaded.Some? ==> loaded.value in others || loaded.value == id)
    }

    /**
     * Adds a new visual scene (id `newId`) to its library, and makes it the
     * visual-scene root when the root, once resolved, has no entity.
     */
    method AddVisualScene(newId: string, dereference: bool, loaded: Option<DocumentId>,
                          others: map<DocumentId, Libraries>, urlOf: DocumentId -> string)
      returns (scene: Entity, report: Option<ErrorCode>)
      requires Valid() && Resolvable(visualSceneRoot, loaded, others)
      modifies `libraries, visualSceneRoot`entity, visualSceneRoot`entityId, visualSceneRoot`placeHolder,
        Present(visualSceneRoot.placeHolder, null)`target, manager`placeHolders, manager.placeHolders`references
      ensures Valid() && (old(manager.Live()) ==> manager.Live())
      ensures fresh(scene) && scene.kind == VisualScene && scene.document == id && scene.daeId == newId
      ensures libraries == old(libraries).(visualScenes := old(libraries.visualScenes) + [scene])
      ensures old(FindEntity(libraries, newId)) == null ==> FindEntity(libraries, newId) == scene
      ensures visualSceneRoot.entity != null
      ensures old(visualSceneRoot.entity) != null ==> visualSceneRoot.entity == old(visualSceneRoot.entity) && report == None
      ensures old(visualSceneRoot.entity) == null && old(visualSceneRoot.entityId) == "" ==> visualSceneRoot.entity == scene
      ensures old(visualSceneRoot.entity) == null && old(visualSceneRoot.entityId) == "" ==> visualSceneRoot.placeHolder == null
      ensures visualSceneRoot.entity == scene ==> visualSceneRoot.entityId == newId
      ensures old(visualSceneRoot.entity) == null ==>
        var load := LoadResult(old(visualSceneRoot.LoadTarget(dereference, loaded)),
          old(visualSceneRoot.entityId), null, dereference, Registry(others));
        report == load.1 && visualSceneRoot.entity == if load.0 != null then load.0 else scene
    {
      scene := NewVisualScene(newId);
      report := AdoptVisualScene(scene, dereference, loaded, others, urlOf);
    }

    /** AddVisualScene's second step: `scene` becomes the root when the root, once resolved, has no entity. */
    method AdoptVisualScene(scene: Entity, dereference: bool, loaded: Option<DocumentId>,
                            others: map<DocumentId, Libraries>, urlOf: DocumentId -> string)
      returns (report: Option<ErrorCode>)
      requires Valid() && Resolvable(visualSceneRoot, loaded, others)
      requires scene.document == id && visualSceneRoot.entity != scene
      modifies visualSceneRoot`entity, visualSceneRoot`entityId, visualSceneRoot`placeHolder,
        Present(visualSceneRoot.placeHolder, null)`target, manager`placeHolders, manager.placeHolders`references
      ensures Valid() && (old(manager.Live()) ==> manager.Live())
      ensures visualSceneRoot.entity != null
      ensures old(visualSceneRoot.entity) != null ==> visualSceneRoot.entity == old(visualSceneRoot.entity) && report == None
      ensures old(visualSceneRoot.entity) == null && old(visualSceneRoot.entityId) == "" ==>
        visualSceneRoot.entity == scene && visualSceneRoot.placeHolder == null
      ensures visualSceneRoot.entity == scene ==> visualSceneRoot.entityId == scene.daeId
      ensures old(visualSceneRoot.entity) == null ==>
        var load := LoadResult(old(visualSceneRoot.LoadTarget(dereference, loaded)),
          old(visualSceneRoot.entityId), null, dereference, Registry(others));
        report == load.1 && visualSceneRoot.entity == if load.0 != null then load.0 else scene
    {
      var e;
      ghost var live := manager.Live();
      e, report := visualSceneRoot.GetEntity(dereference, loaded, Registry(others));
      assert Valid() && (live ==> manager.Live());
      if e == null {
        visualSceneRoot.SetEntity(scene, urlOf);
      }
    }

    /**
     * The entity of the visual-scene root when it resolves to a visual
     * scene, and null otherwise.
     */
    method GetVisualSceneInstance(dereference: bool, loaded: Option<DocumentId>, others: map<DocumentId, Libraries>)
      returns (s: Entity?, report: Option<ErrorCode>)
      requires Resolvable(visualSceneRoot, loaded, others)
      modifies visualSceneRoot`entity, Present(visualSceneRoot.placeHolder, null)`target
      ensures s != null ==> s == visualSceneRoot.entity && s.kind == VisualScene
      ensures s == null ==> visualSceneRoot.entity == null || visualSceneRoot.entity.kind != VisualScene
      ensures old(visualSceneRoot.entity) != null ==> visualSceneRoot.entity == old(visualSceneRoot.entity) && report == None
      ensures old(visualSceneRoot.entity) == null ==>
        (visualSceneRoot.entity, report) == LoadResult(old(visualSceneRoot.LoadTarget(dereference, loaded)),
          visualSceneRoot.entityId, null, dereference, Registry(others))
    {
      var e;
      e, report := visualSceneRoot.GetEntity(dereference, loaded, Registry(others));
      if e != null && e.kind == VisualScene {
        s := e;
      } else {
        s := null;
      }
    }

    /** The physics-scene root reference at `index`, as a set (empty when out of range). */
    function RootAt(index: nat): (r: set<EntityReference>)
      reads this
      ensures index < |physicsSceneRoots| ==> r == {physicsSceneRoots[index]}
      ensures index >= |physicsSceneRoots| ==> r == {}
    {
      if index < |physicsSceneRoots| then {physicsSceneRoots[index]} else {}
    }

    /** The placeholder of the physics-scene root at `index`, as a set. */
    function RootPlaceHolderAt(index: nat): (r: set<PlaceHolder>)
      reads this, RootAt(index)
      ensures index < |physicsSceneRoots| ==> r == Present(physicsSceneRoots[index].placeHolder, null)
      ensures index >= |physicsSceneRoots| ==> r == {}
    {
      if index < |physicsSceneRoots| then Present(physicsSceneRoots[index].placeHolder, null) else {}
    }

    /**
     * The entity of the physics-scene root at `index` when it resolves to a
     * physics scene, and null otherwise; an index past the end (an assertion
     * failure unless the list is empty and the index 0) gives null.
     */
    method GetPhysicsSceneInstance(index: nat, dereference: bool, loaded: Option<DocumentId>,
                                   others: map<DocumentId, Libraries>)
      returns (s: Entity?, report: Option<ErrorCode>)
      requires index < |physicsSceneRoots| ==> Resolvable(physicsSceneRoots[index], loaded, others)
      modifies RootAt(index)`entity, RootPlaceHolderAt(index)`target
      ensures index >= |physicsSceneRoots| ==> s == null && report == None
      ensures s != null ==> index < |physicsSceneRoots| && s == physicsSceneRoots[index].entity && s.kind == PhysicsScene
      ensures index < |physicsSceneRoots| && s == null ==>
        physicsSceneRoots[index].entity == null || physicsSceneRoots[index].entity.kind != PhysicsScene
      ensures index < |physicsSceneRoots| && old(physicsSceneRoots[index].entity) != null ==>
        physicsSceneRoots[index].entity == old(physicsSceneRoots[index].entity) && report == None
      ensures index < |physicsSceneRoots| && old(physicsSceneRoots[index].entity) == null ==>
        (physicsSceneRoots[index].entity, report) == LoadResult(old(physicsSceneRoots[index].LoadTarget(dereference, loaded)),
          physicsSceneRoots[index].entityId, null, dereference, Registry(others))
    {
      report := None;
      if index == 0 && |physicsSceneRoots| == 0 {
        return null, None;
      }
      if index >= |physicsSceneRoots| {
        return null, None;
      }
      var e;
      e, report := physicsSceneRoots[index].GetEntity(dereference, loaded, Registry(others));
      if e != null && e.kind == PhysicsScene {
        s := e;
      } else {
        s := null;
      }
    }
  }
}
