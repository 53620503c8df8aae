/**
 * Document entities (FCDEntity.cpp): the base of every named, identified
 * element of a document. An entity carries a COLLADA id, a sanitised name,
 * a note, a lazily created asset and an extra tree.
 */
module Entities {
  import opened Common
  import ExtraTree

  /** The longest name CleanName keeps, in characters. */
  const MAX_NAME_LENGTH: nat := 512

  /** The kind of an entity: the library it belongs to, or another kind. */
  datatype EntityKind =
    | Animation | AnimationClip | Camera | Controller | Effect | Emitter
    | ForceField | Geometry | Image | Light | Material | VisualScene
    | PhysicsScene | PhysicsMaterial | PhysicsModel | OtherKind

  // ---------------------------------------------------------------------
  // Entity-name sanitiser (FCDEntity::CleanName)
  // ---------------------------------------------------------------------

  /** Characters kept first in an entity name. */
  predicate EntityNameStart(c: char) { IsLetter(c) || c == '_' }

  /** Characters kept after the first one: unlike node names, '-' is kept. */
  predicate EntityNamePart(c: char) { IsLetter(c) || IsDigit(c) || c == '_' || c == '-' }

  predicate IsEntityName(n: string)
  {
    forall i :: 0 <= i < |n| ==> if i == 0 then EntityNameStart(n[i]) else EntityNamePart(n[i])
  }

  /**
   * The number of characters CleanName reads from the C string `s`: up to
   * the first terminator, the end of `s`, or MAX_NAME_LENGTH, whichever
   * comes first.
   */
  function NameLength(s: seq<char>): (n: nat)
    ensures n <= |s| && n <= MAX_NAME_LENGTH
    ensures forall i :: 0 <= i < n ==> s[i] != NUL
    ensures n < |s| && n < MAX_NAME_LENGTH ==> s[n] == NUL
  {
    NameLengthFrom(s, 0)
  }

  function NameLengthFrom(s: seq<char>, k: nat): (n: nat)
    requires k <= |s| && k <= MAX_NAME_LENGTH
    requires forall i :: 0 <= i < k ==> s[i] != NUL
    ensures k <= n <= |s| && n <= MAX_NAME_LENGTH
    ensures forall i :: 0 <= i < n ==> s[i] != NUL
    ensures n < |s| && n < MAX_NAME_LENGTH ==> s[n] == NUL
    decreases MAX_NAME_LENGTH - k
  {
    if k == |s| || k == MAX_NAME_LENGTH || s[k] == NUL then k
    else NameLengthFrom(s, k + 1)
  }

  function CleanEntityChar(c: char, first: bool): char
  {
    if first then (if EntityNameStart(c) then c else '_')
    else (if EntityNamePart(c) then c else '_')
  }

  /**
   * The name FCDEntity::CleanName makes of `s`: its first NameLength(s)
   * characters, each kept when allowed at its position and replaced by
   * '_' otherwise.
   */
  function CleanedEntityName(s: seq<char>): (r: string)
    ensures |r| == NameLength(s)
    ensures IsEntityName(r)
    ensures forall i :: 0 <= i < |r| ==> r[i] == s[i] || r[i] == '_'
    ensures forall i :: 0 <= i < |r| && (if i == 0 then EntityNameStart(s[i]) else EntityNamePart(s[i])) ==> r[i] == s[i]
    ensures forall i :: 0 <= i < |r| && !(if i == 0 then EntityNameStart(s[i]) else EntityNamePart(s[i])) ==> r[i] == '_'
    ensures IsEntityName(s[..|r|]) ==> r == s[..|r|]
    ensures s == [] ==> r == []
  {
    seq(NameLength(s), i requires 0 <= i < NameLength(s) => CleanEntityChar(s[i], i == 0))
  }

  /** A cleaned name is its own clean name: it has no terminator and is short enough. */
  lemma CleanedEntityNameIdempotent(s: seq<char>)
    ensures CleanedEntityName(CleanedEntityName(s)) == CleanedEntityName(s)
  {
    var r := CleanedEntityName(s);
    forall i | 0 <= i < |r|
      ensures r[i] != NUL
    {
      assert CleanEntityChar(s[i], i == 0) == r[i];
    }
    NameLengthWhole(r);
    assert r[..|r|] == r;
  }

  /** NameLength is the only length that stops where CleanName stops. */
  lemma {:induction false} NameLengthIs(s: seq<char>, k: nat, n: nat)
    requires k <= n <= |s| && n <= MAX_NAME_LENGTH
    requires forall i :: 0 <= i < n ==> s[i] != NUL
    requires n == |s| || n == MAX_NAME_LENGTH || s[n] == NUL
    ensures NameLengthFrom(s, k) == n
    decreases n - k
  {
    if k < n {
      NameLengthIs(s, k + 1, n);
    }
  }

  /** A string with no terminator and at most MAX_NAME_LENGTH characters is read whole. */
  lemma NameLengthWhole(s: seq<char>)
    requires |s| <= MAX_NAME_LENGTH
    requires forall i :: 0 <= i < |s| ==> s[i] != NUL
    ensures NameLength(s) == |s|
  {
    NameLengthIs(s, 0, |s|);
  }

  /** The first character is kept when it may start a name, and becomes '_' otherwise. */
  lemma CleanedEntityNameFirst(s: seq<char>)
    requires NameLength(s) > 0
    ensures CleanedEntityName(s)[0] == (if EntityNameStart(s[0]) then s[0] else '_')
  {
  }

  /** ':' and '.' never survive in a cleaned name. */
  lemma CleanedEntityNameDropsSeparators(s: seq<char>, i: nat)
    requires i < NameLength(s) && (s[i] == ':' || s[i] == '.')
    ensures CleanedEntityName(s)[i] == '_'
  {
  }

  /**
   * FCDEntity::CleanName: measures the C string, then writes the first
   * character and each later one into a fresh buffer of that length.
   */
  method CleanName(c: seq<char>) returns (r: string)
    ensures r == CleanedEntityName(c)
  {
    var len := 0;
    while len < MAX_NAME_LENGTH && len < |c| && c[len] != NUL
      invariant len <= MAX_NAME_LENGTH && len <= |c|
      invariant forall i :: 0 <= i < len ==> c[i] != NUL
    {
      len := len + 1;
    }
    NameLengthIs(c, 0, len);
    if len == 0 {
      return [];
    }
    var buffer := new char[len];
    buffer[0] := CleanEntityChar(c[0], true);
    var i := 1;
    while i < len
      invariant 1 <= i <= len
      invariant forall k :: 0 <= k < i ==> buffer[k] == CleanEntityChar(c[k], k == 0)
    {
      buffer[i] := CleanEntityChar(c[i], false);
      i := i + 1;
    }
    r := buffer[..];
    ghost var expected := CleanedEntityName(c);
    assert |r| == |expected|;
    assert forall k :: 0 <= k < len ==> r[k] == expected[k];
  }

  // ---------------------------------------------------------------------
  // Entities (FCDEntity)
  // ---------------------------------------------------------------------

  /** Authoring metadata; the model tracks only its identity. */
  class Asset {
    constructor ()
    {
    }
  }

  /**
   * A document entity. Its id and owning document come from
   * FCDObjectWithId and never change here; the extra tree is created with
   * the entity and owned by it.
   */
  class Entity {
    const document: DocumentId
    const daeId: string
    const kind: EntityKind
    var name: string
    var note: string
    var asset: Asset?
    const extra: ExtraTree.Extra
    /** Set by every setter (SetDirtyFlag). */
    var dirty: bool
    ghost var Repr: set<object>

    ghost predicate Valid()
      reads this, Repr
    {
      && this in Repr
      && extra in Repr && extra.Repr <= Repr && this !in extra.Repr
      && extra.Valid()
    }

    /** A new entity has an empty name and note, no asset and a default extra tree. */
    constructor (document: DocumentId, daeId: string, kind: EntityKind)
      ensures Valid() && fresh(Repr)
      ensures this.document == document && this.daeId == daeId && this.kind == kind
      ensures name == "" && note == "" && asset == null && !dirty
      ensures extra.Contents == [ExtraTree.TypeValue("", [])]
    {
      this.document := document;
      this.daeId := daeId;
      this.kind := kind;
      name := "";
      note := "";
      asset := null;
      dirty := false;
      extra := new ExtraTree.Extra();
      new;
      Repr := {this} + extra.Repr;
    }

    /** Stores the cleaned form of `n`, never the raw input. */
    method SetName(n: string)
      requires Valid()
      modifies this
      ensures Valid() && Repr == old(Repr)
      ensures name == CleanedEntityName(n) && dirty
      ensures note == old(note) && asset == old(asset)
    {
      name := CleanName(n);
      dirty := true;
    }

    method SetNote(n: string)
      requires Valid()
      modifies this
      ensures Valid() && Repr == old(Repr)
      ensures note == n && dirty
      ensures name == old(name) && asset == old(asset)
    {
      note := n;
      dirty := true;
    }

    function GetNote(): (r: string)
      reads this
      ensures HasNote() <==> r != ""
    {
      note
    }

    /** FCDEntity::HasNote: whether the note holds any character. */
    function HasNote(): (r: bool)
      reads this
      ensures r <==> |note| > 0
    {
      note != ""
    }

    /** The asset, created on the first call; later calls return the same object. */
    method GetAsset() returns (a: Asset)
      modifies this
      ensures old(asset) != null ==> a == old(asset)
      ensures old(asset) == null ==> fresh(a)
      ensures asset == a
      ensures name == old(name) && note == old(note) && dirty == old(dirty)
    {
      if asset == null {
        asset := new Asset();
      }
      a := asset;
    }

    /** This entity when its id is `id`, and null otherwise. */
    function FindDaeId(id: string): (r: Entity?)
      ensures r != null <==> daeId == id
      ensures r != null ==> r == this
    {
      if daeId == id then this else null
    }

    /**
     * Copies the name, the note and the extra tree into `clone`, or into a
     * new entity (whose id is `newId`) when `clone` is null; the id of an
     * existing clone is left as it is.
     */
    method Clone(clone: Entity?, newId: string) returns (r: Entity)
      requires Valid()
      requires clone != null ==> clone.Valid() && Repr !! clone.Repr
      modifies if clone != null then clone.Repr else {}
      ensures Valid() && extra.Contents == old(extra.Contents)
      ensures r.Valid() && r.name == name && r.note == note
      ensures clone == null ==> fresh(r.Repr) && r.document == document && r.daeId == newId
      ensures clone == null ==> r.extra.Contents == extra.Contents
      ensures clone != null ==> r == clone && old(clone.Repr) <= r.Repr && fresh(r.Repr - old(clone.Repr))
      ensures clone != null ==> r.extra.Contents == ExtraTree.CloneTypesInto(old(clone.extra.Contents), extra.Contents)
    {
      if clone == null {
        r := CloneNew(newId);
      } else {
        CloneInto(clone);
        r := clone;
      }
    }

    /** Clone with a null target: a new entity of this document. */
    method CloneNew(newId: string) returns (r: Entity)
      requires Valid()
      ensures Valid() && extra.Contents == old(extra.Contents)
      ensures r.Valid() && fresh(r.Repr) && r.document == document && r.daeId == newId
      ensures r.name == name && r.note == note && r.extra.Contents == extra.Contents
    {
      r := new Entity(document, newId, OtherKind);
      ghost var fresh0 := r.Repr;
      r.CopyLabels(name, note);
      CloneExtraTo(r);
      assert fresh(r.Repr - fresh0);
      assert fresh(fresh0);
      extra.DefaultCloneIsCopy();
    }

    /** Clone with an existing target. */
    method CloneInto(clone: Entity)
      requires Valid() && clone.Valid() && Repr !! clone.Repr
      modifies clone.Repr
      ensures Valid() && extra.Contents == old(extra.Contents)
      ensures clone.Valid() && old(clone.Repr) <= clone.Repr && fresh(clone.Repr - old(clone.Repr))
      ensures clone.name == name && clone.note == note
      ensures clone.extra.Contents == ExtraTree.CloneTypesInto(old(clone.extra.Contents), extra.Contents)
    {
      clone.CopyLabels(name, note);
      CloneExtraTo(clone);
    }

    /** Overwrites the name and the note as they are, as Clone does. */
    method CopyLabels(n: string, t: string)
      requires Valid()
      modifies this
      ensures Valid() && Repr == old(Repr)
      ensures name == n && note == t && asset == old(asset) && dirty == old(dirty)
    {
      name, note := n, t;
    }

    /** Clones this entity's extra tree into that of `r`. */
    method CloneExtraTo(r: Entity)
      requires Valid() && r.Valid() && Repr !! r.Repr
      modifies r, r.extra.Repr
      ensures Valid() && extra.Contents == old(extra.Contents)
      ensures r.Valid() && old(r.Repr) <= r.Repr && fresh(r.Repr - old(r.Repr))
      ensures r.name == old(r.name) && r.note == old(r.note)
      ensures r.extra.Contents == ExtraTree.CloneTypesInto(old(r.extra.Contents), extra.Contents)
    {
      extra.CloneTypesTo(r.extra);
      r.Repr := r.Repr + r.extra.Repr;
    }
  }
}
