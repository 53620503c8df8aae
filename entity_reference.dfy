/**
 * References to entities by URI (FCDEntityReference), together with the
 * placeholders that stand for external documents and the per-document
 * manager that owns them.
 *
 * A reference is a lazy pointer: it holds the target's id, the entity once
 * resolved, and a placeholder when the target lives in another document.
 * Placeholders count the references that depend on them and are released
 * by the manager when the last one leaves.
 */
module EntityReferences {
  import opened Common
  import opened Entities
  import opened DocumentLibraries

  /** The two conditions LoadEntity reports to the error sink. */
  datatype ErrorCode = WarningMissingUriTarget | ErrorInvalidUri

  /**
   * The parts of a parsed URI that a reference reads: the fragment, whether
   * the URI names a file, and the file's absolute path.
   */
  datatype Uri = Uri(fragment: string, isFile: bool, absolutePath: string)

  /** The placeholders among `a` and `b` that are not null. */
  function Present(a: PlaceHolder?, b: PlaceHolder?): (r: set<PlaceHolder>)
    ensures forall q :: q in r ==> q == a || q == b
    ensures a != null ==> a in r
    ensures b != null ==> b in r
  {
    (if a == null then {} else {a}) + (if b == null then {} else {b})
  }

  /** `ps` without `x`, in order. */
  function Without(ps: seq<PlaceHolder>, x: PlaceHolder): (r: seq<PlaceHolder>)
    ensures forall q :: q in r ==> q in ps && q != x
    ensures forall q :: q in ps && q != x ==> q in r
    ensures |r| <= |ps|
  {
    if ps == [] then []
    else (if ps[0] == x then [] else [ps[0]]) + Without(ps[1..], x)
  }

  /** The position of the first placeholder for file `url`, or |ps|. */
  function FirstForUrl(ps: seq<PlaceHolder>, url: string): (r: nat)
    ensures r <= |ps|
    ensures forall j :: 0 <= j < r ==> ps[j].fileUrl != url
    ensures r < |ps| ==> ps[r].fileUrl == url
  {
    if ps == [] then 0
    else if ps[0].fileUrl == url then 0
    else 1 + FirstForUrl(ps[1..], url)
  }

  /** The position of the first placeholder whose loaded document is `d`, or |ps|. */
  function FirstForDocument(ps: seq<PlaceHolder>, d: DocumentId): (r: nat)
    reads set q | q in ps
    ensures r <= |ps|
    ensures forall j :: 0 <= j < r ==> ps[j].target != Some(d)
    ensures r < |ps| ==> ps[r].target == Some(d)
  {
    if ps == [] then 0
    else if ps[0].target == Some(d) then 0
    else 1 + FirstForDocument(ps[1..], d)
  }

  /**
   * A stand-in for an external document: its file URL, the document once
   * loaded, and the references that depend on it.
   */
  class PlaceHolder {
    const fileUrl: string
    var target: Option<DocumentId>
    var references: set<EntityReference>

    constructor (fileUrl: string, target: Option<DocumentId>)
      ensures this.fileUrl == fileUrl && this.target == target && references == {}
    {
      this.fileUrl := fileUrl;
      this.target := target;
      references := {};
    }

    /**
     * The loaded document. When none is loaded yet and `forceLoad` holds,
     * loading is attempted; `loaded` is its outcome, which is kept.
     */
    method GetTarget(forceLoad: bool, loaded: Option<DocumentId>) returns (d: Option<DocumentId>)
      modifies `target
      ensures d == target
      ensures old(target).Some? ==> d == old(target)
      ensures old(target).None? ==> d == (if forceLoad then loaded else None)
    {
      if target.None? && forceLoad {
        target := loaded;
      }
      d := target;
    }
  }

  /**
   * The external-reference manager of one document: its placeholders, and
   * (as ghost bookkeeping) the references of the document.
   */
  class ReferenceManager {
    var placeHolders: seq<PlaceHolder>
    ghost var refs: set<EntityReference>

    /**
     * Dependents and placeholders agree: a reference with a placeholder is
     * one of its dependents, and a placeholder's dependents are exactly
     * references that point to it.
     */
    ghost predicate Consistent()
      reads `placeHolders, `refs, placeHolders`references, refs`placeHolder
    {
      && (forall r :: r in refs && r.placeHolder != null ==>
            r.placeHolder in placeHolders && r in r.placeHolder.references)
      && (forall p, r :: p in placeHolders && r in p.references ==> r in refs && r.placeHolder == p)
    }

    /** No placeholder is kept without a dependent. */
    ghost predicate Live()
      reads `placeHolders, placeHolders`references
    {
      forall p :: p in placeHolders ==> p.references != {}
    }

    /** Every placeholder but `q` has a dependent. */
    ghost predicate LiveExcept(q: PlaceHolder?)
      reads `placeHolders, placeHolders`references
    {
      forall p :: p in placeHolders && p != q ==> p.references != {}
    }

    constructor ()
      ensures placeHolders == [] && refs == {}
      ensures Consistent() && Live()
    {
      placeHolders := [];
      refs := {};
    }

    /** The first placeholder for file `url`, or null. */
    function FindForUrl(url: string): (r: PlaceHolder?)
      reads this
      ensures r == null <==> forall p :: p in placeHolders ==> p.fileUrl != url
      ensures r != null ==> r in placeHolders && r.fileUrl == url
      ensures r != null ==> forall j :: 0 <= j < |placeHolders| && placeHolders[j] == r ==> FirstForUrl(placeHolders, url) <= j
    {
      var k := FirstForUrl(placeHolders, url);
      if k < |placeHolders| then placeHolders[k] else null
    }

    /** The first placeholder whose loaded document is `d`, or null. */
    function FindForDocument(d: DocumentId): (r: PlaceHolder?)
      reads this, placeHolders
      ensures r == null <==> forall p :: p in placeHolders ==> p.target != Some(d)
      ensures r != null ==> r in placeHolders && r.target == Some(d)
    {
      var k := FirstForDocument(placeHolders, d);
      if k < |placeHolders| then placeHolders[k] else null
    }

    /** Appends a new placeholder, with no dependents yet. */
    method Add(url: string, target: Option<DocumentId>) returns (p: PlaceHolder)
      requires Consistent()
      modifies `placeHolders
      ensures fresh(p) && p.fileUrl == url && p.target == target && p.references == {}
      ensures placeHolders == old(placeHolders) + [p]
      ensures Consistent()
      ensures old(Live()) ==> LiveExcept(p)
    {
      p := new PlaceHolder(url, target);
      placeHolders := placeHolders + [p];
    }

    /** The first placeholder for file `url`, appending a new one when there is none. */
    method FindOrAddForUrl(url: string) returns (p: PlaceHolder)
      requires Consistent()
      modifies `placeHolders
      ensures p in placeHolders && p.fileUrl == url && Consistent()
      ensures FindForUrl(url) == p
      ensures old(Live()) ==> LiveExcept(p)
      ensures old(FindForUrl(url)) != null ==> p == old(FindForUrl(url))
      ensures old(FindForUrl(url)) == null ==> fresh(p) && p.target == None && p.references == {}
    {
      var found := FindForUrl(url);
      if found == null {
        p := Add(url, None);
      } else {
        p := found;
      }
    }

    /**
     * The first placeholder loaded with document `d`, appending a new one
     * (for `d`, loaded from `url`) when there is none.
     */
    method FindOrAddForDocument(d: DocumentId, url: string) returns (p: PlaceHolder)
      requires Consistent()
      modifies `placeHolders
      ensures p in placeHolders && p.target == Some(d) && Consistent()
      ensures FindForDocument(d) == p
      ensures old(Live()) ==> LiveExcept(p)
      ensures old(FindForDocument(d)) != null ==> p == old(FindForDocument(d))
      ensures old(FindForDocument(d)) == null ==> fresh(p) && p.fileUrl == url && p.references == {}
    {
      var found := FindForDocument(d);
      if found == null {
        p := Add(url, Some(d));
      } else {
        p := found;
      }
    }
  }

  /**
   * The result of LoadEntity, given the document searched (if any), the id
   * sought, the entity held before, the dereference flag and the libraries
   * of the known documents.
   */
  function LoadResult(d: Option<DocumentId>, id: string, current: Entity?, dereference: bool,
                      docs: map<DocumentId, Libraries>): (r: (Entity?, Option<ErrorCode>))
    requires d.Some? ==> d.value in docs
    ensures r.1 == Some(WarningMissingUriTarget) <==> d.None? && dereference
    ensures r.1 == Some(ErrorInvalidUri) <==> d.Some? && id != "" && FindEntity(docs[d.value], id) == null
    ensures d.None? || id == "" ==> r.0 == current
    ensures d.Some? && id != "" ==> r.0 == FindEntity(docs[d.value], id)
    ensures r.0 != current && r.0 != null ==> r.0.daeId == id && r.0 in AllEntities(docs[d.value])
  {
    if d.None? then (current, if dereference then Some(WarningMissingUriTarget) else None)
    else if id == "" then (current, None)
    else
      var e := FindEntity(docs[d.value], id);
      (e, if e == null then Some(ErrorInvalidUri) else None)
  }

  class EntityReference {
    /** The document holding the reference. */
    const document: DocumentId
    /** That document's external-reference manager. */
    const manager: ReferenceManager
    var entity: Entity?
    var entityId: string
    var placeHolder: PlaceHolder?
    /** Set by SetUri (SetDirtyFlag). */
    var dirty: bool

    /** A new reference points nowhere and joins its document's references. */
    constructor (document: DocumentId, manager: ReferenceManager)
      requires manager.Consistent()
      modifies manager`refs
      ensures this.document == document && this.manager == manager
      ensures entity == null && entityId == "" && placeHolder == null && !dirty
      ensures manager.Consistent() && manager.refs == old(manager.refs) + {this}
    {
      this.document := document;
      this.manager := manager;
      entity := null;
      entityId := "";
      placeHolder := null;
      dirty := false;
      new;
      manager.refs := manager.refs + {this};
    }

    /** The document LoadEntity searches: the placeholder's target, or the own document. */
    function SearchedDocument(): (d: Option<DocumentId>)
      reads this, placeHolder
      ensures placeHolder == null ==> d == Some(document)
    {
      if placeHolder == null then Some(document) else placeHolder.target
    }

    /**
     * The document a load from the current state searches: the searched
     * document, or `loaded` when there is none and dereferencing is on.
     */
    function LoadTarget(dereference: bool, loaded: Option<DocumentId>): Option<DocumentId>
      reads this, placeHolder
    {
      if SearchedDocument().None? && dereference then loaded else SearchedDocument()
    }

    /** The id the URI ends with: the resolved entity's, or the stored one. */
    function TargetId(): (id: string)
      reads this
      ensures entity != null ==> id == entity.daeId
      ensures entity == null ==> id == entityId
    {
      if entity != null then entity.daeId else entityId
    }

    /**
     * The reference as a URI string: the placeholder's absolute file URL
     * (when there is one), "#", then the target id. `absoluteUri` stands for
     * FUUri's rendering of a file URL.
     */
    function GetUri(absoluteUri: string -> string): (r: string)
      reads this, placeHolder
      ensures |r| > |TargetId()| && r[|r| - |TargetId()| - 1] == '#'
      ensures r[|r| - |TargetId()|..] == TargetId()
      ensures placeHolder != null ==>
        |r| == |absoluteUri(placeHolder.fileUrl)| + 1 + |TargetId()| &&
        r[..|absoluteUri(placeHolder.fileUrl)|] == absoluteUri(placeHolder.fileUrl)
      ensures placeHolder == null ==> r[0] == '#' && |r| == |TargetId()| + 1
    {
      var path := if placeHolder != null then absoluteUri(placeHolder.fileUrl) else "";
      path + "#" + TargetId()
    }

    /**
     * Switches to placeholder `p`. Nothing happens when it is already the
     * current one; otherwise the reference leaves the old placeholder's
     * dependents (the manager releases it when none remain) and joins the
     * new one's.
     */
    method SetPlaceHolder(p: PlaceHolder?)
      requires manager.Consistent() && this in manager.refs
      requires p != null ==> p in manager.placeHolders
      modifies `placeHolder, manager`placeHolders, Present(placeHolder, p)`references
      ensures placeHolder == p
      ensures manager.Consistent()
      ensures old(manager.LiveExcept(p)) ==> manager.Live()
      ensures p == old(placeHolder) ==> manager.placeHolders == old(manager.placeHolders)
      ensures p == old(placeHolder) && p != null ==> p.references == old(p.references)
      ensures p != old(placeHolder) && p != null ==> p.references == old(p.references) + {this}
      ensures p != old(placeHolder) && old(placeHolder) != null ==>
        old(placeHolder).references == old(placeHolder.references) - {this}
      ensures p != old(placeHolder) && old(placeHolder) != null ==>
        manager.placeHolders ==
          if old(placeHolder.references) == {this} then Without(old(manager.placeHolders), old(placeHolder))
          else old(manager.placeHolders)
      ensures old(placeHolder) == null ==> manager.placeHolders == old(manager.placeHolders)
    {
      if p != placeHolder {
        if placeHolder != null {
          Leave(p);
        }
        if p != null {
          Join(p);
        }
      }
    }

    /** The first half of a switch: leaving the current placeholder. */
    method Leave(next: PlaceHolder?)
      requires manager.Consistent() && this in manager.refs && placeHolder != null
      requires next != placeHolder && (next != null ==> next in manager.placeHolders)
      modifies `placeHolder, manager`placeHolders, placeHolder`references
      ensures placeHolder == null && manager.Consistent()
      ensures next != null ==> next in manager.placeHolders
      ensures old(manager.LiveExcept(next)) ==> manager.LiveExcept(next)
      ensures old(placeHolder).references == old(placeHolder.references) - {this}
      ensures manager.placeHolders ==
        if old(placeHolder.references) == {this} then Without(old(manager.placeHolders), old(placeHolder))
        else old(manager.placeHolders)
    {
      var previous := placeHolder;
      assert forall r :: r in manager.refs && r.placeHolder == previous ==> r in previous.references;
      previous.references := previous.references - {this};
      if previous.references == {} {
        manager.placeHolders := Without(manager.placeHolders, previous);
      }
      placeHolder := null;
      forall r | r in manager.refs && r.placeHolder != null
        ensures r.placeHolder in manager.placeHolders
      {
        var q := r.placeHolder;
        assert old(r in q.references);
        if q == previous {
          assert r in q.references;
        }
      }
    }

    /** The second half of a switch: joining placeholder `p`'s dependents. */
    method Join(p: PlaceHolder)
      requires manager.Consistent() && this in manager.refs && placeHolder == null
      requires p in manager.placeHolders
      modifies `placeHolder, p`references
      ensures placeHolder == p && p.references == old(p.references) + {this}
      ensures manager.Consistent()
      ensures old(manager.LiveExcept(p)) ==> manager.Live()
    {
      placeHolder := p;
      p.references := p.references + {this};
    }

    /**
     * Points the reference at the placeholder for document `d`: none when
     * `d` is absent or is the reference's own document, otherwise the
     * manager's first placeholder loaded with `d`, or a new one for it.
     * `urlOf` stands for the file URL a document was loaded from.
     */
    method SetEntityDocument(d: Option<DocumentId>, urlOf: DocumentId -> string)
      requires manager.Consistent() && this in manager.refs
      modifies `placeHolder, manager`placeHolders, manager.placeHolders`references
      ensures manager.Consistent() && (old(manager.Live()) ==> manager.Live())
      ensures d.None? || d.value == document ==> placeHolder == null
      ensures d.Some? && d.value != document ==> placeHolder != null && placeHolder.target == d
      ensures d.Some? && d.value != document && old(manager.FindForDocument(d.value)) != null ==>
        placeHolder == old(manager.FindForDocument(d.value))
      ensures d.Some? && d.value != document && old(manager.FindForDocument(d.value)) == null ==>
        fresh(placeHolder) && placeHolder.fileUrl == urlOf(d.value) && placeHolder.references == {this}
    {
      var p: PlaceHolder? := null;
      if d.Some? && d.value != document {
        p := manager.FindOrAddForDocument(d.value, urlOf(d.value));
      }
      SetPlaceHolder(p);
    }

    /**
     * Points the reference at `e`, taking over its id, and recomputes the
     * placeholder from `e`'s document. With null the entity and the
     * placeholder are cleared and the id is kept.
     */
    method SetEntity(e: Entity?, urlOf: DocumentId -> string)
      requires manager.Consistent() && this in manager.refs
      modifies `entity, `entityId, `placeHolder, manager`placeHolders, manager.placeHolders`references
      ensures manager.Consistent() && (old(manager.Live()) ==> manager.Live())
      ensures entity == e
      ensures e != null ==> entityId == e.daeId
      ensures e == null ==> entityId == old(entityId) && placeHolder == null
      ensures e != null && e.document == document ==> placeHolder == null
      ensures e != null && e.document != document ==> placeHolder != null && placeHolder.target == Some(e.document)
      ensures e != null && e.document != document && old(manager.FindForDocument(e.document)) != null ==>
        placeHolder == old(manager.FindForDocument(e.document))
    {
      entity := e;
      if e != null {
        entityId := e.daeId;
        SetEntityDocument(Some(e.document), urlOf);
      } else {
        SetEntityDocument(None, urlOf);
      }
    }

    /**
     * Points the reference at `uri`: the id becomes the cleaned fragment and
     * the placeholder the manager's first one for the file's absolute URL (a
     * new one if there is none), or none when the URI names no file. The
     * entity already held is kept. `cleanId` stands for
     * FCDObjectWithId::CleanId and `makeAbsolute` for the file manager's
     * resolution of a path against the current URI.
     */
    method SetUri(uri: Uri, cleanId: string -> string, makeAbsolute: string -> string)
      requires manager.Consistent() && this in manager.refs
      modifies `entityId, `dirty, `placeHolder, manager`placeHolders, manager.placeHolders`references
      ensures manager.Consistent() && (old(manager.Live()) ==> manager.Live())
      ensures entityId == cleanId(uri.fragment) && dirty && entity == old(entity)
      ensures !uri.isFile ==> placeHolder == null
      ensures uri.isFile ==> placeHolder != null && placeHolder.fileUrl == makeAbsolute(uri.absolutePath)
      ensures uri.isFile && old(manager.FindForUrl(makeAbsolute(uri.absolutePath))) != null ==>
        placeHolder == old(manager.FindForUrl(makeAbsolute(uri.absolutePath)))
      ensures uri.isFile && old(manager.FindForUrl(makeAbsolute(uri.absolutePath))) == null ==>
        fresh(placeHolder) && placeHolder.target == None && placeHolder.references == {this}
    {
      entityId := cleanId(uri.fragment);
      var p: PlaceHolder? := null;
      if uri.isFile {
        p := manager.FindOrAddForUrl(makeAbsolute(uri.absolutePath));
      }
      SetPlaceHolder(p);
      dirty := true;
    }

    /**
     * Resolves the stored id in the placeholder's target (loading it when
     * `dereference` holds and it is not loaded yet; `loaded` is the outcome)
     * or, without a placeholder, in the own document. `docs` gives the
     * libraries of every document that can be searched.
     */
    method LoadEntity(dereference: bool, loaded: Option<DocumentId>, docs: map<DocumentId, Libraries>)
      returns (report: Option<ErrorCode>)
      requires document in docs
      requires placeHolder != null && placeHolder.target.Some? ==> placeHolder.target.value in docs
      requires loaded.Some? ==> loaded.value in docs
      modifies `entity, Present(placeHolder, null)`target
      ensures placeHolder != null ==>
        placeHolder.target == if old(placeHolder.target).None? && dereference then loaded else old(placeHolder.target)
      ensures (entity, report) == LoadResult(SearchedDocument(), entityId, old(entity), dereference, docs)
    {
      var d: Option<DocumentId>;
      if placeHolder == null {
        d := Some(document);
      } else {
        d := placeHolder.GetTarget(dereference, loaded);
      }
      if d.None? {
        report := if dereference then Some(WarningMissingUriTarget) else None;
        return;
      }
      report := None;
      if entityId != "" {
        entity := FindEntity(docs[d.value], entityId);
        if entity == null {
          report := Some(ErrorInvalidUri);
        }
      }
    }

    /** The entity, loading it first only while none is held. */
    method GetEntity(dereference: bool, loaded: Option<DocumentId>, docs: map<DocumentId, Libraries>)
      returns (e: Entity?, report: Option<ErrorCode>)
      requires document in docs
      requires placeHolder != null && placeHolder.target.Some? ==> placeHolder.target.value in docs
      requires loaded.Some? ==> loaded.value in docs
      modifies `entity, Present(placeHolder, null)`target
      ensures e == entity
      ensures placeHolder != null ==>
        placeHolder.target ==
          if old(entity) == null && old(placeHolder.target).None? && dereference then loaded else old(placeHolder.target)
      ensures old(entity) != null ==> e == old(entity) && report == None
      ensures old(entity) == null ==> (e, report) == LoadResult(SearchedDocument(), entityId, null, dereference, docs)
      ensures old(entity) == null ==> (e, report) == LoadResult(old(LoadTarget(dereference, loaded)), entityId, null, dereference, docs)
    {
      report := None;
      if entity == null {
        report := LoadEntity(dereference, loaded, docs);
      }
      e := entity;
    }

    /**
     * Notification that `obj` is being released: the placeholder is
     * forgotten; a released entity is forgotten too, and its id is kept
     * only while a placeholder (another document) still locates it. Any
     * other object changes nothing.
     */
    method OnObjectReleased(obj: object)
      modifies `placeHolder, `entity, `entityId
      ensures old(placeHolder) != null && obj == old(placeHolder) ==>
        placeHolder == null && entity == old(entity) && entityId == old(entityId)
      ensures (old(placeHolder) == null || obj != old(placeHolder)) && old(entity) != null && obj == old(entity) ==>
        entity == null && placeHolder == old(placeHolder) &&
        entityId == if old(placeHolder) == null then "" else old(entity.daeId)
      ensures (old(placeHolder) == null || obj != old(placeHolder)) && (old(entity) == null || obj != old(entity)) ==>
        placeHolder == old(placeHolder) && entity == old(entity) && entityId == old(entityId)
    {
      if placeHolder != null && obj == placeHolder {
        placeHolder := null;
      } else if entity != null && obj == entity {
        if placeHolder == null {
          entityId := "";
        } else {
          entityId := entity.daeId;
        }
        entity := null;
      }
    }

    /**
     * The destructor: leaves the placeholder (which the manager releases if
     * this was its last dependent), drops the entity and leaves the
     * document's references.
     */
    method Release()
      requires manager.Consistent() && this in manager.refs
      modifies `placeHolder, `entity, manager`placeHolders, manager`refs, Present(placeHolder, null)`references
      ensures placeHolder == null && entity == null
      ensures manager.refs == old(manager.refs) - {this}
      ensures manager.Consistent() && (old(manager.Live()) ==> manager.Live())
      ensures old(placeHolder) != null ==> old(placeHolder).references == old(placeHolder.references) - {this}
      ensures old(placeHolder) != null && old(placeHolder.references) == {this} ==> old(placeHolder) !in manager.placeHolders
    {
      SetPlaceHolder(null);
      entity := null;
      manager.refs := manager.refs - {this};
    }
  }
}
