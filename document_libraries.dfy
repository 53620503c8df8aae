/**
 * The entity libraries of a document and the id lookup over them
 * (FCDocument::FindEntity). A library is the sequence of its entities in
 * insertion order; the document searches its fifteen libraries in a fixed
 * order and returns the first entity whose id matches.
 */
module DocumentLibraries {
  import opened Entities

  datatype Libraries = Libraries(
    animations: seq<Entity>,
    animationClips: seq<Entity>,
    cameras: seq<Entity>,
    controllers: seq<Entity>,
    effects: seq<Entity>,
    emitters: seq<Entity>,
    forceFields: seq<Entity>,
    geometries: seq<Entity>,
    images: seq<Entity>,
    lights: seq<Entity>,
    materials: seq<Entity>,
    visualScenes: seq<Entity>,
    physicsScenes: seq<Entity>,
    physicsMaterials: seq<Entity>,
    physicsModels: seq<Entity>)

  /** Fifteen empty libraries, as a new document creates them. */
  const NoLibraries := Libraries([], [], [], [], [], [], [], [], [], [], [], [], [], [], [])

  /** The libraries in the order FindEntity consults them. */
  function SearchOrder(l: Libraries): (r: seq<seq<Entity>>)
    ensures |r| == 15
    ensures r[0] == l.animations && r[1] == l.animationClips && r[2] == l.cameras
    ensures r[3] == l.controllers && r[4] == l.effects && r[5] == l.emitters
    ensures r[6] == l.forceFields && r[7] == l.geometries && r[8] == l.images
    ensures r[9] == l.lights && r[10] == l.materials && r[11] == l.visualScenes
    ensures r[12] == l.physicsScenes && r[13] == l.physicsMaterials && r[14] == l.physicsModels
  {
    [l.animations, l.animationClips, l.cameras, l.controllers, l.effects,
     l.emitters, l.forceFields, l.geometries, l.images, l.lights,
     l.materials, l.visualScenes, l.physicsScenes, l.physicsMaterials,
     l.physicsModels]
  }

  /** Every entity of the given libraries, library after library. */
  function Flatten(ls: seq<seq<Entity>>): seq<Entity>
  {
    if ls == [] then [] else ls[0] + Flatten(ls[1..])
  }

  /** The entities of a document in search order. */
  function AllEntities(l: Libraries): seq<Entity>
  {
    Flatten(SearchOrder(l))
  }

  /**
   * FCDLibrary::FindDaeId: the first entity of the library whose own
   * FindDaeId answers, or null.
   */
  function FindInLibrary(es: seq<Entity>, id: string): (r: Entity?)
    ensures r == null <==> forall i :: 0 <= i < |es| ==> es[i].daeId != id
    ensures r != null ==> r in es && r.daeId == id
  {
    if es == [] then null
    else if es[0].FindDaeId(id) != null then es[0].FindDaeId(id)
    else FindInLibrary(es[1..], id)
  }

  /** The first library, in order, that answers. */
  function FindInLibraries(ls: seq<seq<Entity>>, id: string): (r: Entity?)
  {
    if ls == [] then null
    else if FindInLibrary(ls[0], id) != null then FindInLibrary(ls[0], id)
    else FindInLibraries(ls[1..], id)
  }

  /** FCDocument::FindEntity. */
  function FindEntity(l: Libraries, id: string): (r: Entity?)
    ensures r == null <==> forall e :: e in AllEntities(l) ==> e.daeId != id
    ensures r != null ==> r in AllEntities(l) && r.daeId == id
  {
    FindInLibrariesIsFirst(SearchOrder(l), id);
    FindInLibraries(SearchOrder(l), id)
  }

  /** The position of the first entity with id `id`, if any. */
  function FirstWithId(es: seq<Entity>, id: string): (r: nat)
    ensures r <= |es|
    ensures forall j :: 0 <= j < r ==> es[j].daeId != id
    ensures r < |es| ==> es[r].daeId == id
  {
    if es == [] then 0
    else if es[0].daeId == id then 0
    else 1 + FirstWithId(es[1..], id)
  }

  lemma FindInLibraryIsFirst(es: seq<Entity>, id: string)
    ensures FindInLibrary(es, id) == if FirstWithId(es, id) < |es| then es[FirstWithId(es, id)] else null
  {
  }

  lemma FirstWithIdAppend(a: seq<Entity>, b: seq<Entity>, id: string)
    ensures FirstWithId(a + b, id) ==
      if FirstWithId(a, id) < |a| then FirstWithId(a, id) else |a| + FirstWithId(b, id)
  {
    if a != [] {
      assert (a + b)[1..] == a[1..] + b;
      FirstWithIdAppend(a[1..], b, id);
    } else {
      assert a + b == b;
    }
  }

  /**
   * Searching the libraries one after another finds the same entity as
   * searching all their entities as one list: the first one with the id.
   */
  lemma {:induction false} FindInLibrariesIsFirst(ls: seq<seq<Entity>>, id: string)
    ensures FindInLibraries(ls, id) ==
      if FirstWithId(Flatten(ls), id) < |Flatten(ls)| then Flatten(ls)[FirstWithId(Flatten(ls), id)] else null
  {
    if ls != [] {
      FindInLibrariesIsFirst(ls[1..], id);
      FindInLibraryIsFirst(ls[0], id);
      FirstWithIdAppend(ls[0], Flatten(ls[1..]), id);
    }
  }

  /**
   * FindEntity returns the first entity, in library search order, whose id
   * is `id`: no entity before it in that order carries the id.
   */
  lemma FindEntityIsFirst(l: Libraries, id: string)
    ensures var all := AllEntities(l); var k := FirstWithId(all, id);
      FindEntity(l, id) == if k < |all| then all[k] else null
  {
    FindInLibrariesIsFirst(SearchOrder(l), id);
  }

  /** The first library in search order that holds the id decides the answer. */
  lemma FindEntityPrecedence(l: Libraries, id: string, k: nat)
    requires k < 15
    requires FindInLibrary(SearchOrder(l)[k], id) != null
    requires forall j :: 0 <= j < k ==> FindInLibrary(SearchOrder(l)[j], id) == null
    ensures FindEntity(l, id) == FindInLibrary(SearchOrder(l)[k], id)
  {
    FindInLibrariesIsFirst(SearchOrder(l), id);
    FindInLibrariesPrefix(SearchOrder(l), id, k);
  }

  lemma {:induction false} FindInLibrariesPrefix(ls: seq<seq<Entity>>, id: string, k: nat)
    requires k < |ls|
    requires FindInLibrary(ls[k], id) != null
    requires forall j :: 0 <= j < k ==> FindInLibrary(ls[j], id) == null
    ensures FindInLibraries(ls, id) == FindInLibrary(ls[k], id)
  {
    if k > 0 {
      FindInLibrariesPrefix(ls[1..], id, k - 1);
    }
  }

  /** An entity of library `k` is among the flattened entities. */
  lemma {:induction false} InFlatten(ls: seq<seq<Entity>>, k: nat, e: Entity)
    requires k < |ls| && e in ls[k]
    ensures e in Flatten(ls)
  {
    if k > 0 {
      InFlatten(ls[1..], k - 1, e);
    }
  }

  /** A library whose entities all lack the id, extended by one entity with it, answers that entity. */
  lemma {:induction false} FindInAppended(es: seq<Entity>, e: Entity, x: string)
    requires forall f :: f in es ==> f.daeId != x
    requires e.daeId == x
    ensures FindInLibrary(es + [e], x) == e
  {
    if es == [] {
      assert es + [e] == [e];
    } else {
      assert (es + [e])[1..] == es[1..] + [e];
      FindInAppended(es[1..], e, x);
    }
  }

  /**
   * Appending an entity with a fresh id to library `k` makes the library
   * search answer that entity.
   */
  lemma {:induction false} FoundAfterAdd(ls: seq<seq<Entity>>, ls': seq<seq<Entity>>, k: nat, e: Entity, x: string)
    requires |ls'| == |ls| && k < |ls|
    requires ls'[k] == ls[k] + [e]
    requires forall j :: 0 <= j < |ls| && j != k ==> ls'[j] == ls[j]
    requires forall f :: f in Flatten(ls) ==> f.daeId != x
    requires e.daeId == x
    ensures FindInLibraries(ls', x) == e
  {
    forall f | f in ls[0]
      ensures f.daeId != x
    {
      InFlatten(ls, 0, f);
    }
    if k == 0 {
      FindInAppended(ls[0], e, x);
    } else {
      assert FindInLibrary(ls'[0], x) == null;
      forall f | f in Flatten(ls[1..])
        ensures f.daeId != x
      {
        assert f in ls[0] + Flatten(ls[1..]);
      }
      FoundAfterAdd(ls[1..], ls'[1..], k - 1, e, x);
    }
  }

  /**
   * The document lookup finds an entity right after it is added to any of
   * the fifteen libraries, provided no entity of the document had its id.
   */
  lemma FindEntityAfterAdd(l: Libraries, l': Libraries, k: nat, e: Entity, x: string)
    requires k < 15
    requires SearchOrder(l')[k] == SearchOrder(l)[k] + [e]
    requires forall j :: 0 <= j < 15 && j != k ==> SearchOrder(l')[j] == SearchOrder(l)[j]
    requires FindEntity(l, x) == null
    requires e.daeId == x
    ensures FindEntity(l', x) == e
  {
    FoundAfterAdd(SearchOrder(l), SearchOrder(l'), k, e, x);
  }
}
