/**
 * Face and hole bookkeeping of a polygon set (FCDGeometryPolygons).
 *
 * A polygon set keeps one face-vertex count per entry of its list; some
 * entries are holes of the face that precedes them. The hole list holds
 * the positions of the hole entries, in ascending order. A face index
 * counts only the entries that are not holes, so face `i` sits at list
 * position `i + HolesBefore(holes, i)`, followed by the run of its own
 * holes. Every input of the set may own an index buffer holding one index
 * per face-vertex pair.
 */
module GeometryPolygons {

  /** Range of the uint32 values the hole and face-vertex count lists store. */
  const UINT32_LIMIT: nat := 0x1_0000_0000
  /** First uint32 value that turns negative when read as an int32. */
  const INT32_LIMIT: nat := 0x8000_0000

  function Sum(s: seq<nat>): nat
  {
    if s == [] then 0 else Sum(s[..|s| - 1]) + s[|s| - 1]
  }

  lemma {:induction false} SumAppend(a: seq<nat>, b: seq<nat>)
    ensures Sum(a + b) == Sum(a) + Sum(b)
  {
    if b == [] {
      assert a + b == a;
    } else {
      assert (a + b)[..|a + b| - 1] == a + b[..|b| - 1];
      SumAppend(a, b[..|b| - 1]);
    }
  }

  predicate Ascending(s: seq<nat>)
  {
    forall i, j :: 0 <= i < j < |s| ==> s[i] < s[j]
  }

  /**
   * Hole positions are ascending uint32 positions inside the count list,
   * and the list is short enough for every position to be a uint32.
   */
  predicate WellFormed(counts: seq<nat>, holes: seq<nat>)
  {
    Ascending(holes) && |counts| <= UINT32_LIMIT &&
    forall j :: 0 <= j < |holes| ==> holes[j] < |counts|
  }

  /**
   * GetFaceCount, declared in the class header, which is not part of this
   * model: the number of entries that are not holes.
   */
  function FaceCount(counts: seq<nat>, holes: seq<nat>): nat
  {
    if |holes| <= |counts| then |counts| - |holes| else 0
  }

  /** The hole lookup of the class: the position is cast to uint32 first. */
  predicate IsHole(holes: seq<nat>, position: nat)
  {
    (if position < UINT32_LIMIT then position else position % UINT32_LIMIT) in holes
  }

  /**
   * The GetHoleCountBefore scan: walk the hole list and count every hole at
   * or below a running index that moves up by one with each counted hole.
   */
  function HolesBefore(holes: seq<nat>, index: nat): (k: nat)
    ensures k <= |holes|
  {
    if holes == [] then 0
    else
      var k := HolesBefore(holes[..|holes| - 1], index);
      if holes[|holes| - 1] <= index + k then k + 1 else k
  }

  /** List position of face `index`. */
  function FacePosition(holes: seq<nat>, index: nat): nat
  {
    index + HolesBefore(holes, index)
  }

  /**
   * The GetHoleCount scan: the number of consecutive hole entries starting
   * at position `i`, stopping at the end of a list of `n` entries.
   */
  function HoleRun(n: nat, holes: seq<nat>, i: nat): (c: nat)
    ensures c == 0 || i + c <= n
    ensures forall m :: i <= m < i + c ==> IsHole(holes, m)
    ensures i + c < n ==> !IsHole(holes, i + c)
    decreases n - i
  {
    if i < n && IsHole(holes, i) then 1 + HoleRun(n, holes, i + 1) else 0
  }

  /** Number of holes of face `index`. */
  function FaceHoleCount(counts: seq<nat>, holes: seq<nat>, index: nat): nat
  {
    HoleRun(|counts|, holes, FacePosition(holes, index) + 1)
  }

  /**
   * The condition under which the class reads a face's entries inside the
   * list: a face below the face count has its position inside the list.
   */
  predicate FaceInList(counts: seq<nat>, holes: seq<nat>, index: nat)
  {
    index < FaceCount(counts, holes) ==> FacePosition(holes, index) < |counts|
  }

  /** Sum of the counts before face `index`, or 0 past the end of the list. */
  function FaceVertexOffset(counts: seq<nat>, holes: seq<nat>, index: nat): nat
  {
    var p := FacePosition(holes, index);
    if p < |counts| then Sum(counts[..p]) else 0
  }

  /** Sum of the counts of face `index` and of its holes; 0 for no such face. */
  function FaceVertexCount(counts: seq<nat>, holes: seq<nat>, index: nat): nat
    requires FaceInList(counts, holes, index)
  {
    if index < FaceCount(counts, holes) then
      var p := FacePosition(holes, index);
      Sum(counts[p .. p + FaceHoleCount(counts, holes, index) + 1])
    else 0
  }

  // ----- Properties of the hole arithmetic -----

  lemma {:induction false} AscendingGap(s: seq<nat>, i: nat, j: nat)
    requires Ascending(s) && i <= j < |s|
    ensures s[i] + (j - i) <= s[j]
  {
    if i < j {
      AscendingGap(s, i, j - 1);
    }
  }

  /** An ascending list of positions below `n` has at most `n` entries. */
  lemma HolesFit(counts: seq<nat>, holes: seq<nat>)
    requires WellFormed(counts, holes)
    ensures |holes| <= |counts|
  {
    if holes != [] {
      AscendingGap(holes, 0, |holes| - 1);
    }
  }

  /**
   * On an ascending hole list the scan counts exactly the holes that lie
   * below the face's position: the first `k` holes lie below it, the others
   * above it.
   */
  lemma {:induction false} HolesBeforeSplits(holes: seq<nat>, index: nat)
    requires Ascending(holes)
    ensures var k := HolesBefore(holes, index);
      (forall j :: 0 <= j < k ==> holes[j] < index + k) &&
      (forall j :: k <= j < |holes| ==> index + k < holes[j])
  {
    if holes != [] {
      var init := holes[..|holes| - 1];
      assert Ascending(init);
      HolesBeforeSplits(init, index);
      var k0 := HolesBefore(init, index);
      if k0 < |init| {
        assert index + k0 < holes[k0] < holes[|holes| - 1];
      }
    }
  }

  /** No other count satisfies that split: it characterises HolesBefore. */
  lemma HolesBeforeUnique(holes: seq<nat>, index: nat, k: nat)
    requires Ascending(holes) && k <= |holes|
    requires forall j :: 0 <= j < k ==> holes[j] < index + k
    requires forall j :: k <= j < |holes| ==> index + k < holes[j]
    ensures HolesBefore(holes, index) == k
  {
    var k0 := HolesBefore(holes, index);
    HolesBeforeSplits(holes, index);
    if k0 < k {
      AscendingGap(holes, k0, k - 1);
    } else if k < k0 {
      AscendingGap(holes, k, k0 - 1);
    }
  }

  /** A face's position is never a hole. */
  lemma FacePositionNotHole(holes: seq<nat>, index: nat)
    requires Ascending(holes)
    ensures FacePosition(holes, index) !in holes
  {
    HolesBeforeSplits(holes, index);
  }

  /** On a well-formed list every face below the face count lies in the list. */
  lemma FacePositionInRange(counts: seq<nat>, holes: seq<nat>, index: nat)
    requires WellFormed(counts, holes)
    ensures FaceInList(counts, holes, index)
  {
    HolesBeforeSplits(holes, index);
  }

  /**
   * The holes of a face are the hole-list entries right after the holes
   * before it: entry `k + t` is position `p + 1 + t`.
   */
  lemma {:induction false} HoleRunEntries(counts: seq<nat>, holes: seq<nat>, index: nat, t: nat)
    requires WellFormed(counts, holes)
    requires t < FaceHoleCount(counts, holes, index)
    ensures var k := HolesBefore(holes, index);
      k + t < |holes| && holes[k + t] == FacePosition(holes, index) + 1 + t
    decreases t
  {
    var k := HolesBefore(holes, index);
    var p := FacePosition(holes, index);
    HolesBeforeSplits(holes, index);
    assert p + 1 + t < UINT32_LIMIT;
    assert IsHole(holes, p + 1 + t);
    var j :| 0 <= j < |holes| && holes[j] == p + 1 + t;
    if t > 0 {
      HoleRunEntries(counts, holes, index, t - 1);
      assert holes[k + t - 1] < holes[j];
    }
    assert k + t <= j;
    assert holes[k + t] <= holes[j];
  }

  lemma HoleRunFits(counts: seq<nat>, holes: seq<nat>, index: nat)
    requires WellFormed(counts, holes)
    ensures HolesBefore(holes, index) + FaceHoleCount(counts, holes, index) <= |holes|
  {
    var hc := FaceHoleCount(counts, holes, index);
    if hc > 0 {
      HoleRunEntries(counts, holes, index, hc - 1);
    }
  }

  /**
   * The face after face `index` starts right after its holes: it has
   * `FaceHoleCount` more holes before it.
   */
  lemma NextFaceHoles(counts: seq<nat>, holes: seq<nat>, index: nat)
    requires WellFormed(counts, holes)
    ensures HolesBefore(holes, index + 1) ==
      HolesBefore(holes, index) + FaceHoleCount(counts, holes, index)
  {
    var k := HolesBefore(holes, index);
    var p := FacePosition(holes, index);
    var hc := FaceHoleCount(counts, holes, index);
    HolesBeforeSplits(holes, index);
    HoleRunFits(counts, holes, index);
    forall j | 0 <= j < k + hc
      ensures holes[j] < index + 1 + (k + hc)
    {
      if k <= j {
        HoleRunEntries(counts, holes, index, j - k);
      }
    }
    forall j | k + hc <= j < |holes|
      ensures index + 1 + (k + hc) < holes[j]
    {
      HolePastRun(counts, holes, index, j);
    }
    HolesBeforeUnique(holes, index + 1, k + hc);
  }

  /** A hole-list entry after a face's run lies past the entry that ends the run. */
  lemma HolePastRun(counts: seq<nat>, holes: seq<nat>, index: nat, j: nat)
    requires WellFormed(counts, holes)
    requires HolesBefore(holes, index) + FaceHoleCount(counts, holes, index) <= j < |holes|
    ensures FacePosition(holes, index) + FaceHoleCount(counts, holes, index) + 1 < holes[j]
  {
    var p := FacePosition(holes, index);
    var hc := FaceHoleCount(counts, holes, index);
    HolesBeforeSplits(holes, index);
    if hc > 0 {
      HoleRunEntries(counts, holes, index, hc - 1);
    }
    assert p + hc < holes[j] < |counts|;
    assert !IsHole(holes, p + 1 + hc);
  }

  /**
   * Faces tile the face-vertex sequence: the next face starts where this
   * face and its holes end.
   */
  lemma FaceOffsetsAdjacent(counts: seq<nat>, holes: seq<nat>, index: nat)
    requires WellFormed(counts, holes) && index + 1 < FaceCount(counts, holes)
    ensures FaceInList(counts, holes, index)
    ensures FaceVertexOffset(counts, holes, index + 1) ==
      FaceVertexOffset(counts, holes, index) + FaceVertexCount(counts, holes, index)
  {
    FacePositionInRange(counts, holes, index);
    FacePositionInRange(counts, holes, index + 1);
    NextFaceHoles(counts, holes, index);
    var p := FacePosition(holes, index);
    var q := FacePosition(holes, index + 1);
    assert counts[..q] == counts[..p] + counts[p..q];
    SumAppend(counts[..p], counts[p..q]);
  }

  // ----- RemoveFace on values -----

  /** The count list after RemoveFace erased a face and its holes. */
  function ErasedCounts(counts: seq<nat>, holes: seq<nat>, index: nat): (r: seq<nat>)
    requires FaceInList(counts, holes, index) && index < FaceCount(counts, holes)
    ensures |r| == |counts| - FaceHoleCount(counts, holes, index) - 1
    ensures Sum(r) == Sum(counts) - FaceVertexCount(counts, holes, index)
  {
    var p := FacePosition(holes, index);
    var e := p + FaceHoleCount(counts, holes, index) + 1;
    assert counts == counts[..p] + counts[p..e] + counts[e..];
    SumAppend(counts[..p] + counts[p..e], counts[e..]);
    SumAppend(counts[..p], counts[p..e]);
    SumAppend(counts[..p], counts[e..]);
    counts[..p] + counts[e..]
  }

  /**
   * RemoveFace as written leaves the hole list alone. On the list
   * [4, 3, 4] whose entry 1 is a hole of face 0, removing face 0 leaves
   * one face but a hole position past the end of the list, so the face
   * count drops by two.
   */
  lemma RemoveFaceLeavesStaleHoles()
    ensures var counts, holes := [4, 3, 4], [1];
      WellFormed(counts, holes) && FaceCount(counts, holes) == 2 &&
      FaceInList(counts, holes, 0) &&
      var erased := ErasedCounts(counts, holes, 0);
      erased == [4] && !WellFormed(erased, holes) && FaceCount(erased, holes) == 0
  {
    var counts: seq<nat>, holes: seq<nat> := [4, 3, 4], [1];
    assert HolesBefore(holes, 0) == 0 by {
      assert holes[..0] == [];
    }
    assert HoleRun(3, holes, 2) == 0;
    assert HoleRun(3, holes, 1) == 1;
    assert counts[..0] + counts[2..] == [4];
  }

  function ShiftDown(s: seq<nat>, d: nat): (r: seq<nat>)
    requires forall i :: 0 <= i < |s| ==> d <= s[i]
    ensures |r| == |s| && forall i :: 0 <= i < |s| ==> r[i] + d == s[i]
  {
    seq(|s|, i requires 0 <= i < |s| => s[i] - d)
  }

  /**
   * The hole list RemoveFace should leave: the removed face's holes go and
   * the holes after them move down by the number of removed entries.
   */
  function RemovedHoles(counts: seq<nat>, holes: seq<nat>, index: nat): (r: seq<nat>)
    requires WellFormed(counts, holes) && index < FaceCount(counts, holes)
    ensures |r| == |holes| - FaceHoleCount(counts, holes, index)
  {
    var k := HolesBefore(holes, index);
    var hc := FaceHoleCount(counts, holes, index);
    HoleRunFits(counts, holes, index);
    HolesAfterRun(counts, holes, index);
    holes[..k] + ShiftDown(holes[k + hc..], hc + 1)
  }

  /** The holes after a face's run lie past the run. */
  lemma HolesAfterRun(counts: seq<nat>, holes: seq<nat>, index: nat)
    requires WellFormed(counts, holes)
    ensures HolesBefore(holes, index) + FaceHoleCount(counts, holes, index) <= |holes|
    ensures var k := HolesBefore(holes, index); var hc := FaceHoleCount(counts, holes, index);
      forall j :: k + hc <= j < |holes| ==> FacePosition(holes, index) + hc + 1 < holes[j]
  {
    NextFaceHoles(counts, holes, index);
    HoleRunFits(counts, holes, index);
    HolesBeforeSplits(holes, index + 1);
  }

  /**
   * Removing a face together with its holes, and shifting the later holes,
   * keeps the lists well formed and removes exactly one face and its
   * face-vertex pairs.
   */
  /** Where each entry of the corrected hole list comes from. */
  lemma RemovedHolesAt(counts: seq<nat>, holes: seq<nat>, index: nat, j: nat)
    requires WellFormed(counts, holes) && index < FaceCount(counts, holes)
    requires j < |RemovedHoles(counts, holes, index)|
    ensures var k := HolesBefore(holes, index); var hc := FaceHoleCount(counts, holes, index);
      var h := RemovedHoles(counts, holes, index); var p := FacePosition(holes, index);
      (j < k ==> h[j] < p) &&
      (k <= j ==> k + hc + (j - k) < |holes| && h[j] + hc + 1 == holes[k + hc + (j - k)] && p <= h[j])
  {
    HolesBeforeSplits(holes, index);
    HolesAfterRun(counts, holes, index);
  }

  /**
   * Removing a face together with its holes, and shifting the later holes,
   * keeps the lists well formed and removes exactly one face and its
   * face-vertex pairs.
   */
  lemma RemovedHolesWellFormed(counts: seq<nat>, holes: seq<nat>, index: nat)
    requires WellFormed(counts, holes) && index < FaceCount(counts, holes)
    ensures FaceInList(counts, holes, index)
    ensures var c := ErasedCounts(counts, holes, index); var h := RemovedHoles(counts, holes, index);
      WellFormed(c, h) && FaceCount(c, h) == FaceCount(counts, holes) - 1 &&
      Sum(c) == Sum(counts) - FaceVertexCount(counts, holes, index)
  {
    FacePositionInRange(counts, holes, index);
    var c := ErasedCounts(counts, holes, index);
    var h := RemovedHoles(counts, holes, index);
    forall i, j | 0 <= i < j < |h|
      ensures h[i] < h[j]
    {
      RemovedHolesAt(counts, holes, index, i);
      RemovedHolesAt(counts, holes, index, j);
    }
    forall j | 0 <= j < |h|
      ensures h[j] < |c|
    {
      RemovedHolesAt(counts, holes, index, j);
    }
    HolesFit(counts, holes);
    HolesFit(c, h);
  }

  // ----- The uint32 and int32 views of counts -----

  /** The int32 that TestPolyType returns for a uint32 count. */
  function AsInt32(u: nat): int
    requires u < UINT32_LIMIT
  {
    if u < INT32_LIMIT then u else u - UINT32_LIMIT
  }

  predicate AllTriangles(counts: seq<nat>)
  {
    forall i :: 0 <= i < |counts| ==> counts[i] == 3
  }

  /** The common count of a non-empty uniform list, as an int32, or -1. */
  function PolyType(counts: seq<nat>): (r: int)
    requires forall i :: 0 <= i < |counts| ==> counts[i] < UINT32_LIMIT
    ensures r == -1 || (|counts| > 0 && r == AsInt32(counts[0]))
  {
    if |counts| > 0 && forall i :: 0 <= i < |counts| ==> counts[i] == counts[0]
    then AsInt32(counts[0]) else -1
  }

  /** A non-empty list is all triangles exactly when its poly type is 3. */
  lemma TrianglesPolyType(counts: seq<nat>)
    requires forall i :: 0 <= i < |counts| ==> counts[i] < UINT32_LIMIT
    requires |counts| > 0
    ensures AllTriangles(counts) <==> PolyType(counts) == 3
  {
    if PolyType(counts) == 3 {
      assert counts[0] == 3;
    }
  }

  /** The index buffer after resizing to `n`: a prefix kept, zeros appended. */
  function Resized(s: seq<nat>, n: nat): (r: seq<nat>)
    ensures |r| == n
    ensures forall i :: 0 <= i < n && i < |s| ==> r[i] == s[i]
    ensures forall i :: |s| <= i < n ==> r[i] == 0
  {
    if n <= |s| then s[..n] else s + seq(n - |s|, _ => 0)
  }

  /** The index count AddFace gives an input that held `count` indices. */
  function GrownIndexCount(newSet: bool, count: nat, degree: nat): nat
  {
    if !newSet && count > 0 then count + degree
    else if newSet && count == 0 then degree
    else count
  }

  /**
   * AddFace keeps owning inputs in step with the counts: an owner held the
   * old total, and an empty set had no owner.
   */
  lemma GrownCountMatches(newSet: bool, count: nat, total: nat, degree: nat)
    requires newSet ==> total == 0
    requires count > 0 ==> count == total
    ensures GrownIndexCount(newSet, count, degree) > 0 ==>
      GrownIndexCount(newSet, count, degree) == total + degree
  {
  }

  /**
   * An index buffer after RemoveFace dropped `count` indices at `offset`.
   * A range that runs past the end cuts the buffer at `offset`, since the
   * buffer keeps max(offset, length - count) entries.
   */
  function RemovedRange(s: seq<nat>, offset: nat, count: nat): (r: seq<nat>)
    ensures offset < |s| ==> |r| == (if offset + count <= |s| then |s| - count else offset)
    ensures offset < |s| ==> r[..offset] == s[..offset]
    ensures offset < |s| ==> forall i :: offset <= i < |r| ==> r[i] == s[i + count]
    ensures |s| <= offset ==> r == s
  {
    if offset < |s| then s[..offset] + (if offset + count <= |s| then s[offset + count..] else []) else s
  }

  /** An input of the polygon set: the id of its source and its index buffer. */
  class PolygonsInput {
    const sourceId: string
    var indices: array<nat>

    constructor(sourceId: string)
      ensures this.sourceId == sourceId && indices.Length == 0 && fresh(indices)
    {
      this.sourceId := sourceId;
      indices := new nat[0];
    }

    /** An input owns indices when its buffer is not empty. */
    predicate OwnsIndices()
      reads `indices
    {
      indices.Length > 0
    }

    /** Resizes the index buffer, keeping the leading indices. */
    method SetIndexCount(count: nat)
      modifies `indices
      ensures fresh(indices)
      ensures indices[..] == Resized(old(indices[..]), count)
    {
      var a := new nat[count];
      var i := 0;
      while i < count
        invariant 0 <= i <= count && indices == old(indices)
        invariant forall j :: 0 <= j < i ==> a[j] == if j < indices.Length then indices[j] else 0
      {
        a[i] := if i < indices.Length then indices[i] else 0;
        i := i + 1;
      }
      assert a[..] == Resized(indices[..], count);
      indices := a;
    }

    /**
     * One input's part of AddFace: an owner grows by `degree` on a set that
     * had faces; on an empty set an input without indices becomes an owner.
     */
    method Grow(newSet: bool, degree: nat)
      modifies `indices
      ensures indices[..] == Resized(old(indices[..]), GrownIndexCount(newSet, old(indices.Length), degree))
      ensures indices.Length == GrownIndexCount(newSet, old(indices.Length), degree)
      ensures indices == old(indices) || fresh(indices)
    {
      if !newSet && OwnsIndices() {
        SetIndexCount(indices.Length + degree);
      } else if newSet && indices.Length == 0 {
        SetIndexCount(degree);
      }
    }

    /**
     * One input's part of RemoveFace: an owning input whose buffer reaches
     * past `offset` moves its later indices down over the removed ones, in
     * place, then shrinks to max(offset, old count - count).
     */
    method RemoveIndexRange(offset: nat, count: nat)
      requires offset < indices.Length ==> count <= indices.Length
      modifies `indices, indices
      ensures indices[..] == RemovedRange(old(indices[..]), offset, count)
      ensures indices == old(indices) || fresh(indices)
    {
      if !OwnsIndices() {
        return;
      }
      var a := indices;
      ghost var s := a[..];
      var n := a.Length;
      if offset < n {
        var keep := if offset > n - count then offset else n - count;
        var o := offset;
        while o < n - count
          invariant offset <= o <= keep && indices == a
          invariant forall i :: 0 <= i < offset ==> a[i] == s[i]
          invariant forall i :: offset <= i < o ==> a[i] == s[i + count]
          invariant forall i :: o <= i < n ==> a[i] == s[i]
        {
          a[o] := a[o + count];
          o := o + 1;
        }
        assert a[..keep] == RemovedRange(s, offset, count);
        SetIndexCount(keep);
      }
    }
  }

  /** A polygon set: face-vertex counts, hole positions and inputs. */
  class Polygons {
    var inputs: seq<PolygonsInput>
    var faceVertexCounts: seq<nat>
    var holeFaces: seq<nat>
    var faceVertexCount: nat
    var dirty: bool

    /** Counts and hole positions are uint32 values, the holes ascending. */
    predicate ListsValid()
      reads `faceVertexCounts, `holeFaces
    {
      Ascending(holeFaces) &&
      (forall i :: 0 <= i < |faceVertexCounts| ==> faceVertexCounts[i] < UINT32_LIMIT) &&
      (forall i :: 0 <= i < |holeFaces| ==> holeFaces[i] < UINT32_LIMIT)
    }

    /** No two inputs are the same object or share an index buffer. */
    predicate InputsValid()
      reads `inputs, inputs`indices
    {
      forall i, j :: 0 <= i < j < |inputs| ==>
        inputs[i] != inputs[j] && inputs[i].indices != inputs[j].indices
    }

    predicate Valid()
      reads `inputs, `faceVertexCounts, `holeFaces, inputs`indices
    {
      ListsValid() && InputsValid()
    }

    /** Every owning input holds one index per face-vertex pair. */
    predicate IndicesMatchCounts()
      reads `inputs, `faceVertexCounts, inputs`indices
    {
      forall i :: 0 <= i < |inputs| && inputs[i].OwnsIndices() ==>
        inputs[i].indices.Length == Sum(faceVertexCounts)
    }

    constructor()
      ensures Valid() && inputs == [] && faceVertexCounts == [] && holeFaces == []
      ensures faceVertexCount == 0
    {
      inputs := [];
      faceVertexCounts := [];
      holeFaces := [];
      faceVertexCount := 0;
      dirty := false;
    }

    /** Adds an input reading the source with the given id; it owns no indices yet. */
    method AddInput(sourceId: string) returns (input: PolygonsInput)
      requires Valid()
      modifies `inputs
      ensures Valid()
      ensures fresh(input) && input.sourceId == sourceId && !input.OwnsIndices()
      ensures inputs == old(inputs) + [input]
    {
      input := new PolygonsInput(sourceId);
      inputs := inputs + [input];
    }

    /** The hole test compares the index cast to uint32 with the recorded hole positions. */
    function IsHoleFaceHole(index: nat): (r: bool)
      reads `holeFaces
      ensures r <==> index % UINT32_LIMIT in holeFaces
      ensures index < UINT32_LIMIT ==> (r <==> index in holeFaces)
    {
      IsHole(holeFaces, index)
    }

    method GetHoleCountBefore(index: nat) returns (holeCount: nat)
      ensures holeCount == HolesBefore(holeFaces, index)
    {
      holeCount := 0;
      var position := index;
      var i := 0;
      while i < |holeFaces|
        invariant 0 <= i <= |holeFaces|
        invariant holeCount == HolesBefore(holeFaces[..i], index)
        invariant position == index + holeCount
      {
        assert holeFaces[..i + 1][..i] == holeFaces[..i];
        if holeFaces[i] <= position {
          holeCount := holeCount + 1;
          position := position + 1;
        }
        i := i + 1;
      }
      assert holeFaces[..i] == holeFaces;
    }

    method GetHoleCount(index: nat) returns (holeCount: nat)
      ensures holeCount == FaceHoleCount(faceVertexCounts, holeFaces, index)
    {
      var before := GetHoleCountBefore(index);
      var start := index + before + 1;
      holeCount := 0;
      var i := start;
      while i < |faceVertexCounts|
        invariant start <= i && holeCount == i - start
        invariant HoleRun(|faceVertexCounts|, holeFaces, start) ==
          holeCount + HoleRun(|faceVertexCounts|, holeFaces, i)
        decreases |faceVertexCounts| - i
      {
        if !IsHoleFaceHole(i) {
          break;
        }
        holeCount := holeCount + 1;
        i := i + 1;
      }
    }

    method GetFaceVertexOffset(index: nat) returns (offset: nat)
      ensures offset == FaceVertexOffset(faceVertexCounts, holeFaces, index)
    {
      offset := 0;
      var holeCount := GetHoleCountBefore(index);
      if index + holeCount < |faceVertexCounts| {
        var end := index + holeCount;
        var i := 0;
        while i < end
          invariant 0 <= i <= end
          invariant offset == Sum(faceVertexCounts[..i])
        {
          assert faceVertexCounts[..i + 1][..i] == faceVertexCounts[..i];
          offset := offset + faceVertexCounts[i];
          i := i + 1;
        }
      }
    }

    method GetFaceVertexCount(index: nat) returns (count: nat)
      requires FaceInList(faceVertexCounts, holeFaces, index)
      ensures count == FaceVertexCount(faceVertexCounts, holeFaces, index)
    {
      count := 0;
      if index < FaceCount(faceVertexCounts, holeFaces) {
        var holeCount := GetHoleCount(index);
        var before := GetHoleCountBefore(index);
        var start := index + before;
        var end := start + holeCount + 1;
        var i := start;
        while i < end
          invariant start <= i <= end
          invariant count == Sum(faceVertexCounts[start..i])
        {
          assert faceVertexCounts[start..i + 1][..i - start] == faceVertexCounts[start..i];
          count := count + faceVertexCounts[i];
          i := i + 1;
        }
      }
    }

    /** Sets faceVertexCount to the total of the face-vertex counts. */
    method Recalculate()
      modifies `faceVertexCount, `dirty
      ensures faceVertexCount == Sum(faceVertexCounts) && dirty
    {
      faceVertexCount := 0;
      var i := 0;
      while i < |faceVertexCounts|
        invariant 0 <= i <= |faceVertexCounts|
        invariant faceVertexCount == Sum(faceVertexCounts[..i])
      {
        assert faceVertexCounts[..i + 1][..i] == faceVertexCounts[..i];
        faceVertexCount := faceVertexCount + faceVertexCounts[i];
        i := i + 1;
      }
      assert faceVertexCounts[..i] == faceVertexCounts;
      dirty := true;
    }

    method IsTriangles() returns (r: bool)
      ensures r <==> AllTriangles(faceVertexCounts)
    {
      var i := 0;
      while i < |faceVertexCounts| && faceVertexCounts[i] == 3
        invariant 0 <= i <= |faceVertexCounts|
        invariant forall j :: 0 <= j < i ==> faceVertexCounts[j] == 3
      {
        i := i + 1;
      }
      r := i == |faceVertexCounts|;
    }

    method TestPolyType() returns (r: int)
      requires Valid()
      ensures r == PolyType(faceVertexCounts)
    {
      if |faceVertexCounts| > 0 {
        var first := faceVertexCounts[0];
        var i := 0;
        while i < |faceVertexCounts| && faceVertexCounts[i] == first
          invariant 0 <= i <= |faceVertexCounts|
          invariant forall j :: 0 <= j < i ==> faceVertexCounts[j] == first
        {
          i := i + 1;
        }
        if i == |faceVertexCounts| {
          return AsInt32(first);
        }
      }
      return -1;
    }

    /**
     * The first input whose source id equals `sourceId`, read without a
     * leading '#', or null.
     */
    method FindInput(sourceId: string) returns (r: PolygonsInput?)
      ensures var id := if |sourceId| > 0 && sourceId[0] == '#' then sourceId[1..] else sourceId;
        (r == null <==> forall i :: 0 <= i < |inputs| ==> inputs[i].sourceId != id) &&
        (r != null ==> exists i :: (0 <= i < |inputs| && inputs[i] == r && r.sourceId == id &&
          forall j :: 0 <= j < i ==> inputs[j].sourceId != id))
    {
      var id := sourceId;
      if |id| > 0 && id[0] == '#' {
        id := id[1..];
      }
      var i := 0;
      while i < |inputs|
        invariant 0 <= i <= |inputs|
        invariant forall j :: 0 <= j < i ==> inputs[j].sourceId != id
      {
        if inputs[i].sourceId == id {
          return inputs[i];
        }
        i := i + 1;
      }
      return null;
    }

    /**
     * Inserts a hole position before the first larger one; a position that
     * is already a hole is refused.
     */
    method AddHole(index: nat)
      requires Valid() && index < UINT32_LIMIT
      modifies `holeFaces
      ensures Valid()
      ensures old(IsHoleFaceHole(index)) ==> holeFaces == old(holeFaces)
      ensures !old(IsHoleFaceHole(index)) ==> |holeFaces| == |old(holeFaces)| + 1
      ensures !old(IsHoleFaceHole(index)) ==>
        forall h :: h in holeFaces <==> h in old(holeFaces) || h == index
    {
      if IsHoleFaceHole(index) {
        return;
      }
      var i := 0;
      while i < |holeFaces| && !(index < holeFaces[i])
        invariant 0 <= i <= |holeFaces|
        invariant forall j :: 0 <= j < i ==> holeFaces[j] < index
      {
        i := i + 1;
      }
      holeFaces := holeFaces[..i] + [index] + holeFaces[i..];
    }

    /** AddFace's push of the new count. */
    method AppendCount(degree: nat)
      requires ListsValid() && degree < UINT32_LIMIT
      modifies `faceVertexCounts
      ensures ListsValid()
      ensures faceVertexCounts == old(faceVertexCounts) + [degree]
      ensures Sum(faceVertexCounts) == Sum(old(faceVertexCounts)) + degree
    {
      faceVertexCounts := faceVertexCounts + [degree];
      assert faceVertexCounts[..|faceVertexCounts| - 1] == old(faceVertexCounts);
    }

    /** AddFace's pass over the inputs. */
    method GrowIndexBuffers(newSet: bool, degree: nat)
      requires InputsValid()
      modifies inputs`indices
      ensures InputsValid()
      ensures forall i :: 0 <= i < |inputs| ==>
        inputs[i].indices[..] == Resized(old(inputs[i].indices[..]),
          GrownIndexCount(newSet, old(inputs[i].indices.Length), degree))
      ensures forall i :: 0 <= i < |inputs| ==>
        inputs[i].indices.Length == GrownIndexCount(newSet, old(inputs[i].indices.Length), degree)
    {
      var i := 0;
      while i < |inputs|
        invariant 0 <= i <= |inputs|
        invariant InputsValid()
        invariant forall j :: 0 <= j < i ==>
          inputs[j].indices[..] == Resized(old(inputs[j].indices[..]),
            GrownIndexCount(newSet, old(inputs[j].indices.Length), degree))
        invariant forall j :: i <= j < |inputs| ==> inputs[j].indices == old(inputs[j].indices)
      {
        inputs[i].Grow(newSet, degree);
        i := i + 1;
      }
    }

    /**
     * Appends a face. On a set that had faces every owning input grows by
     * `degree` indices; on an empty set every input without indices becomes
     * an owner of `degree` indices.
     */
    method AddFace(degree: nat)
      requires Valid() && degree < UINT32_LIMIT
      modifies `faceVertexCounts, `faceVertexCount, `dirty, inputs`indices
      ensures Valid()
      ensures faceVertexCounts == old(faceVertexCounts) + [degree]
      ensures holeFaces == old(holeFaces) && inputs == old(inputs)
      ensures forall i :: 0 <= i < |inputs| ==>
        inputs[i].indices[..] == Resized(old(inputs[i].indices[..]),
          GrownIndexCount(old(|faceVertexCounts|) == 0, old(inputs[i].indices.Length), degree))
      ensures faceVertexCount == Sum(faceVertexCounts) && dirty
      ensures old(IndicesMatchCounts()) ==> IndicesMatchCounts()
    {
      var newSet := |faceVertexCounts| == 0;
      ghost var matched := IndicesMatchCounts();
      AppendCount(degree);
      GrowIndexBuffers(newSet, degree);
      Recalculate();
      if matched {
        forall i | 0 <= i < |inputs| && inputs[i].OwnsIndices()
          ensures inputs[i].indices.Length == Sum(faceVertexCounts)
        {
          GrownCountMatches(newSet, old(inputs[i].indices.Length), Sum(old(faceVertexCounts)), degree);
        }
      }
    }

    /** RemoveFace's pass over the inputs. */
    method RemoveIndexRanges(offset: nat, count: nat)
      requires InputsValid()
      requires forall i :: 0 <= i < |inputs| && offset < inputs[i].indices.Length ==>
        count <= inputs[i].indices.Length
      modifies inputs`indices, set i | 0 <= i < |inputs| :: inputs[i].indices
      ensures InputsValid()
      ensures forall i :: 0 <= i < |inputs| ==>
        inputs[i].indices[..] == RemovedRange(old(inputs[i].indices[..]), offset, count)
    {
      var i := 0;
      while i < |inputs|
        invariant 0 <= i <= |inputs|
        invariant InputsValid()
        invariant forall j :: 0 <= j < i ==>
          inputs[j].indices[..] == RemovedRange(old(inputs[j].indices[..]), offset, count)
        invariant forall j :: i <= j < |inputs| ==>
          inputs[j].indices == old(inputs[j].indices) && inputs[j].indices[..] == old(inputs[j].indices[..])
      {
        inputs[i].RemoveIndexRange(offset, count);
        i := i + 1;
      }
    }

    /** RemoveFace's erasure of the face's entry and its holes' entries. */
    method EraseFace(index: nat)
      requires ListsValid()
      requires FaceInList(faceVertexCounts, holeFaces, index) && index < FaceCount(faceVertexCounts, holeFaces)
      modifies `faceVertexCounts
      ensures ListsValid()
      ensures faceVertexCounts == old(ErasedCounts(faceVertexCounts, holeFaces, index))
    {
      var holeBefore := GetHoleCountBefore(index);
      var holeCount := GetHoleCount(index);
      faceVertexCounts := faceVertexCounts[..index + holeBefore] + faceVertexCounts[index + holeBefore + holeCount + 1..];
    }

    /**
     * Removes face `index`, its holes and its indices in every owning input.
     * The hole list is left as it was (see RemoveFaceLeavesStaleHoles).
     */
    method RemoveFace(index: nat)
      requires Valid() && FaceInList(faceVertexCounts, holeFaces, index)
      requires index < FaceCount(faceVertexCounts, holeFaces) ==>
        var offset := FaceVertexOffset(faceVertexCounts, holeFaces, index);
        forall i :: 0 <= i < |inputs| && offset < inputs[i].indices.Length ==>
          FaceVertexCount(faceVertexCounts, holeFaces, index) <= inputs[i].indices.Length
      modifies `faceVertexCounts, `faceVertexCount, `dirty
      modifies inputs`indices, set i | 0 <= i < |inputs| :: inputs[i].indices
      ensures Valid() && holeFaces == old(holeFaces) && inputs == old(inputs)
      ensures old(index >= FaceCount(faceVertexCounts, holeFaces)) ==>
        faceVertexCounts == old(faceVertexCounts) && faceVertexCount == old(faceVertexCount) && dirty == old(dirty) &&
        forall i :: 0 <= i < |inputs| ==>
          inputs[i].indices == old(inputs[i].indices) && inputs[i].indices[..] == old(inputs[i].indices[..])
      ensures old(index < FaceCount(faceVertexCounts, holeFaces)) ==>
        faceVertexCounts == old(ErasedCounts(faceVertexCounts, holeFaces, index)) &&
        faceVertexCount == Sum(faceVertexCounts) && dirty
      ensures old(index < FaceCount(faceVertexCounts, holeFaces)) ==>
        forall i :: 0 <= i < |inputs| ==> (inputs[i].indices[..] ==
          RemovedRange(old(inputs[i].indices[..]), old(FaceVertexOffset(faceVertexCounts, holeFaces, index)),
            old(FaceVertexCount(faceVertexCounts, holeFaces, index))))
    {
      if index >= FaceCount(faceVertexCounts, holeFaces) {
        return;
      }
      var offset := GetFaceVertexOffset(index);
      var indexCount := GetFaceVertexCount(index);
      RemoveIndexRanges(offset, indexCount);
      EraseFace(index);
      Recalculate();
    }

    /**
     * RemoveFace with the hole list kept in step: the face's holes are
     * dropped and the later hole positions move down by the number of
     * erased entries.
     */
    method RemoveFaceAndHoles(index: nat)
      requires Valid() && WellFormed(faceVertexCounts, holeFaces)
      requires FaceInList(faceVertexCounts, holeFaces, index) && index < FaceCount(faceVertexCounts, holeFaces)
      requires var offset := FaceVertexOffset(faceVertexCounts, holeFaces, index);
        forall i :: 0 <= i < |inputs| && offset < inputs[i].indices.Length ==>
          FaceVertexCount(faceVertexCounts, holeFaces, index) <= inputs[i].indices.Length
      modifies `faceVertexCounts, `holeFaces, `faceVertexCount, `dirty
      modifies inputs`indices, set i | 0 <= i < |inputs| :: inputs[i].indices
      ensures Valid() && WellFormed(faceVertexCounts, holeFaces) && inputs == old(inputs)
      ensures FaceCount(faceVertexCounts, holeFaces) == old(FaceCount(faceVertexCounts, holeFaces)) - 1
      ensures faceVertexCounts == old(ErasedCounts(faceVertexCounts, holeFaces, index))
      ensures holeFaces == old(RemovedHoles(faceVertexCounts, holeFaces, index))
      ensures faceVertexCount == Sum(faceVertexCounts) && dirty
      ensures forall i :: 0 <= i < |inputs| ==> (inputs[i].indices[..] ==
        RemovedRange(old(inputs[i].indices[..]), old(FaceVertexOffset(faceVertexCounts, holeFaces, index)),
          old(FaceVertexCount(faceVertexCounts, holeFaces, index))))
    {
      var counts, holes := faceVertexCounts, holeFaces;
      RemovedHolesWellFormed(counts, holes, index);
      var offset := GetFaceVertexOffset(index);
      var indexCount := GetFaceVertexCount(index);
      RemoveIndexRanges(offset, indexCount);
      EraseFace(index);
      holeFaces := RemovedHoles(counts, holes, index);
      Recalculate();
    }
  }
}
