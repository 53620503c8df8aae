/**
 * The extra tree of a COLLADA element (FCDExtra.cpp): an extra holds named
 * types, a type holds one technique per application profile, and a
 * technique is the root of a tree of nodes carrying a name, text content,
 * attributes and child nodes.
 *
 * The objects are classes updated in place. Each keeps a ghost footprint
 * `Repr` and a ghost abstract value (`Tree` for a node, `Contents` for a
 * type or an extra) that `Valid()` ties to its fields; the cloning and
 * lookup behaviour is stated on those values.
 */
module ExtraTree {
  import opened Common

  // ---------------------------------------------------------------------
  // Node-name sanitiser (FCDENode::CleanName)
  // ---------------------------------------------------------------------

  /** Characters allowed first in an extra node or attribute name. */
  predicate NodeNameStart(c: char) { c == '_' || IsLetter(c) }

  /** Characters allowed after the first one. */
  predicate NodeNamePart(c: char) { NodeNameStart(c) || IsDigit(c) }

  predicate IsNodeName(n: string)
  {
    forall i :: 0 <= i < |n| ==> if i == 0 then NodeNameStart(n[i]) else NodeNamePart(n[i])
  }

  function CleanNodeChar(c: char, first: bool): char
  {
    if first then (if NodeNameStart(c) then c else '_')
    else (if NodeNamePart(c) then c else '_')
  }

  /** Every character outside its class becomes an underscore; the length is kept. */
  function CleanedNodeName(n: string): (r: string)
    ensures |r| == |n|
    ensures IsNodeName(r)
    ensures IsNodeName(n) ==> r == n
    ensures forall i :: 0 <= i < |n| ==> r[i] == n[i] || r[i] == '_'
    ensures forall i :: 0 <= i < |n| && (if i == 0 then NodeNameStart(n[i]) else NodeNamePart(n[i])) ==> r[i] == n[i]
    ensures forall i :: 0 <= i < |n| && !(if i == 0 then NodeNameStart(n[i]) else NodeNamePart(n[i])) ==> r[i] == '_'
  {
    seq(|n|, i requires 0 <= i < |n| => CleanNodeChar(n[i], i == 0))
  }

  lemma CleanedNodeNameIdempotent(n: string)
    ensures CleanedNodeName(CleanedNodeName(n)) == CleanedNodeName(n)
  {
  }

  /** FCDENode::CleanName: sanitises the name in place. */
  method CleanName(n: array<char>)
    modifies n
    ensures n[..] == CleanedNodeName(old(n[..]))
  {
    if n.Length == 0 {
      return;
    }
    if !NodeNameStart(n[0]) {
      n[0] := '_';
    }
    var i := 1;
    while i < n.Length
      invariant 1 <= i <= n.Length
      invariant forall k :: 0 <= k < i ==> n[k] == CleanNodeChar(old(n[k]), k == 0)
      invariant forall k :: i <= k < n.Length ==> n[k] == old(n[k])
    {
      if !NodeNamePart(n[i]) {
        n[i] := '_';
      }
      i := i + 1;
    }
  }

  /** Runs CleanName over a copy of the string. */
  method CleanString(s: string) returns (r: string)
    ensures r == CleanedNodeName(s)
  {
    var a := new char[|s|](i requires 0 <= i < |s| => s[i]);
    CleanName(a);
    r := a[..];
  }

  // ---------------------------------------------------------------------
  // Attributes
  // ---------------------------------------------------------------------

  datatype Attribute = Attribute(name: string, value: string)

  /** Index of the first attribute called `name` (FCDENode::FindAttribute). */
  function FindAttributeIndex(attrs: seq<Attribute>, name: string): (r: Option<nat>)
    ensures r.Some? ==> r.value < |attrs| && attrs[r.value].name == name
    ensures r.Some? ==> forall k :: 0 <= k < r.value ==> attrs[k].name != name
    ensures r.None? <==> forall k :: 0 <= k < |attrs| ==> attrs[k].name != name
  {
    if attrs == [] then None
    else if attrs[0].name == name then Some(0)
    else match FindAttributeIndex(attrs[1..], name)
      case None => None
      case Some(k) => Some(k + 1)
  }

  /** The value of attribute `name`, or the empty string (FCDENode::ReadAttribute). */
  function AttributeValue(attrs: seq<Attribute>, name: string): (r: string)
    ensures (forall k :: 0 <= k < |attrs| ==> attrs[k].name != name) ==> r == ""
    ensures (exists k :: 0 <= k < |attrs| && attrs[k].name == name) ==>
              exists k :: 0 <= k < |attrs| && attrs[k] == Attribute(name, r)
  {
    match FindAttributeIndex(attrs, name)
    case None => ""
    case Some(k) => attrs[k].value
  }

  /** Overwrite the value of the attribute called `name`, or append a new one. */
  function UpsertAttribute(attrs: seq<Attribute>, name: string, value: string): seq<Attribute>
  {
    match FindAttributeIndex(attrs, name)
    case Some(k) => attrs[k := Attribute(name, value)]
    case None => attrs + [Attribute(name, value)]
  }

  /** Names are sanitised and no two attributes share a name. */
  predicate AttributesWellFormed(attrs: seq<Attribute>)
  {
    && (forall i :: 0 <= i < |attrs| ==> IsNodeName(attrs[i].name))
    && (forall i, j :: 0 <= i < j < |attrs| ==> attrs[i].name != attrs[j].name)
  }

  /** Position at which UpsertAttribute stores `name`. */
  function UpsertPosition(attrs: seq<Attribute>, name: string): nat
  {
    match FindAttributeIndex(attrs, name)
    case Some(k) => k
    case None => |attrs|
  }

  lemma UpsertAttributeShape(attrs: seq<Attribute>, name: string, value: string)
    ensures UpsertPosition(attrs, name) < |UpsertAttribute(attrs, name, value)|
    ensures UpsertAttribute(attrs, name, value)[UpsertPosition(attrs, name)] == Attribute(name, value)
    ensures forall i :: 0 <= i < |UpsertAttribute(attrs, name, value)| && i != UpsertPosition(attrs, name) ==>
              UpsertAttribute(attrs, name, value)[i] == attrs[i]
    ensures |UpsertAttribute(attrs, name, value)| ==
              if FindAttributeIndex(attrs, name).Some? then |attrs| else |attrs| + 1
  {
  }

  /** AddAttribute keeps names sanitised and unique, and reading the name back gives the new value. */
  lemma UpsertAttributeProperties(attrs: seq<Attribute>, name: string, value: string)
    requires AttributesWellFormed(attrs) && IsNodeName(name)
    ensures AttributesWellFormed(UpsertAttribute(attrs, name, value))
    ensures AttributeValue(UpsertAttribute(attrs, name, value), name) == value
    ensures |UpsertAttribute(attrs, name, value)| ==
              if FindAttributeIndex(attrs, name).Some? then |attrs| else |attrs| + 1
  {
    var r := UpsertAttribute(attrs, name, value);
    var pos := UpsertPosition(attrs, name);
    UpsertAttributeShape(attrs, name, value);
    assert AttributesWellFormed(r);
    assert FindAttributeIndex(r, name) == Some(pos);
  }

  /** AddAttribute leaves the value of every other name unchanged. */
  lemma UpsertAttributeOthers(attrs: seq<Attribute>, name: string, value: string, other: string)
    requires AttributesWellFormed(attrs) && other != name
    ensures AttributeValue(UpsertAttribute(attrs, name, value), other) == AttributeValue(attrs, other)
  {
    var r := UpsertAttribute(attrs, name, value);
    UpsertAttributeShape(attrs, name, value);
    match FindAttributeIndex(attrs, other)
    case None =>
      assert forall k :: 0 <= k < |r| ==> r[k].name != other;
    case Some(k) =>
      assert r[k] == attrs[k];
      assert FindAttributeIndex(r, other) == Some(k);
  }

  /** The attributes of `dst` after AddAttribute was called for each attribute of `src`, in order. */
  function UpsertAttributes(dst: seq<Attribute>, src: seq<Attribute>): seq<Attribute>
  {
    if src == [] then dst
    else
      var last := src[|src| - 1];
      UpsertAttribute(UpsertAttributes(dst, src[..|src| - 1]), CleanedNodeName(last.name), last.value)
  }

  lemma {:induction false} UpsertAttributesWellFormed(dst: seq<Attribute>, src: seq<Attribute>)
    requires AttributesWellFormed(dst)
    ensures AttributesWellFormed(UpsertAttributes(dst, src))
  {
    if src != [] {
      var last := src[|src| - 1];
      UpsertAttributesWellFormed(dst, src[..|src| - 1]);
      UpsertAttributeProperties(UpsertAttributes(dst, src[..|src| - 1]), CleanedNodeName(last.name), last.value);
    }
  }

  /** Re-adding well-formed attributes to a node without attributes reproduces them. */
  lemma {:induction false} UpsertAttributesIntoEmpty(src: seq<Attribute>)
    requires AttributesWellFormed(src)
    ensures UpsertAttributes([], src) == src
  {
    if src != [] {
      var init := src[..|src| - 1];
      var last := src[|src| - 1];
      assert AttributesWellFormed(init);
      UpsertAttributesIntoEmpty(init);
      assert CleanedNodeName(last.name) == last.name;
      assert forall k :: 0 <= k < |init| ==> init[k].name != last.name;
      assert init + [last] == src;
    }
  }

  // ---------------------------------------------------------------------
  // Abstract values of the tree
  // ---------------------------------------------------------------------

  datatype NodeValue = NodeValue(name: string, content: string, attributes: seq<Attribute>, children: seq<NodeValue>)

  /** A freshly constructed node. */
  const EmptyNode: NodeValue := NodeValue("", "", [], [])

  datatype TechniqueValue = TechniqueValue(profile: string, node: NodeValue)

  datatype TypeValue = TypeValue(name: string, techniques: seq<TechniqueValue>)

  /** Every node of the tree has sanitised, unique attribute names. */
  ghost predicate WellFormedNode(t: NodeValue)
    decreases t
  {
    && AttributesWellFormed(t.attributes)
    && forall i :: 0 <= i < |t.children| ==> WellFormedNode(t.children[i])
  }

  /**
   * The node `dst` after FCDENode::Clone copied `src` into it: name and
   * content overwritten, the attributes of `src` added one by one, and a
   * fresh deep copy of each child of `src` appended after the children
   * `dst` already had.
   */
  function CloneNodeValue(src: NodeValue, dst: NodeValue): NodeValue
    decreases src
  {
    NodeValue(
      src.name,
      src.content,
      UpsertAttributes(dst.attributes, src.attributes),
      dst.children + seq(|src.children|, i requires 0 <= i < |src.children| => CloneNodeValue(src.children[i], EmptyNode)))
  }

  lemma {:induction false} CloneNodeValueWellFormed(src: NodeValue, dst: NodeValue)
    requires WellFormedNode(dst)
    ensures WellFormedNode(CloneNodeValue(src, dst))
    decreases src
  {
    UpsertAttributesWellFormed(dst.attributes, src.attributes);
    forall i | 0 <= i < |src.children|
      ensures WellFormedNode(CloneNodeValue(src.children[i], EmptyNode))
    {
      CloneNodeValueWellFormed(src.children[i], EmptyNode);
    }
  }

  /** Cloning a well-formed node into a new node yields an equal tree. */
  lemma {:induction false} CloneNodeIsCopy(t: NodeValue)
    requires WellFormedNode(t)
    ensures CloneNodeValue(t, EmptyNode) == t
    decreases t
  {
    UpsertAttributesIntoEmpty(t.attributes);
    forall i | 0 <= i < |t.children|
      ensures CloneNodeValue(t.children[i], EmptyNode) == t.children[i]
    {
      CloneNodeIsCopy(t.children[i]);
    }
    assert CloneNodeValue(t, EmptyNode).children == t.children;
  }

  /** Index of the first technique of profile `profile` (FCDEType::FindTechnique). */
  function FindTechniqueIndex(ts: seq<TechniqueValue>, profile: string): (r: Option<nat>)
    ensures r.Some? ==> r.value < |ts| && ts[r.value].profile == profile
    ensures r.Some? ==> forall k :: 0 <= k < r.value ==> ts[k].profile != profile
    ensures r.None? <==> forall k :: 0 <= k < |ts| ==> ts[k].profile != profile
  {
    if ts == [] then None
    else if ts[0].profile == profile then Some(0)
    else match FindTechniqueIndex(ts[1..], profile)
      case None => None
      case Some(k) => Some(k + 1)
  }

  /** Index of the first type called `name` (FCDExtra::FindType). */
  function FindTypeIndex(types: seq<TypeValue>, name: string): (r: Option<nat>)
    ensures r.Some? ==> r.value < |types| && types[r.value].name == name
    ensures r.Some? ==> forall k :: 0 <= k < r.value ==> types[k].name != name
    ensures r.None? <==> forall k :: 0 <= k < |types| ==> types[k].name != name
  {
    if types == [] then None
    else if types[0].name == name then Some(0)
    else match FindTypeIndex(types[1..], name)
      case None => None
      case Some(k) => Some(k + 1)
  }

  /** The technique `dst` after FCDETechnique::Clone copied `src` into it. */
  function CloneTechniqueValue(src: TechniqueValue, dst: TechniqueValue): TechniqueValue
  {
    TechniqueValue(src.profile, CloneNodeValue(src.node, dst.node))
  }

  /** The techniques `ts` after AddTechnique(src.profile) followed by a clone of `src` into the result. */
  function AddTechniqueClone(ts: seq<TechniqueValue>, src: TechniqueValue): seq<TechniqueValue>
  {
    match FindTechniqueIndex(ts, src.profile)
    case Some(k) => ts[k := CloneTechniqueValue(src, ts[k])]
    case None => ts + [CloneTechniqueValue(src, TechniqueValue(src.profile, EmptyNode))]
  }

  /** The techniques `ts` after each technique of `srcs` was cloned into it, in order. */
  function CloneTechniquesInto(ts: seq<TechniqueValue>, srcs: seq<TechniqueValue>): seq<TechniqueValue>
  {
    if srcs == [] then ts
    else AddTechniqueClone(CloneTechniquesInto(ts, srcs[..|srcs| - 1]), srcs[|srcs| - 1])
  }

  /** The type `dst` after FCDEType::Clone copied `src` into it; the name of `dst` is kept. */
  function CloneTypeValue(src: TypeValue, dst: TypeValue): TypeValue
  {
    TypeValue(dst.name, CloneTechniquesInto(dst.techniques, src.techniques))
  }

  /** The types after AddType(src.name) followed by a clone of `src` into the result. */
  function AddTypeClone(types: seq<TypeValue>, src: TypeValue): seq<TypeValue>
  {
    match FindTypeIndex(types, src.name)
    case Some(k) => types[k := CloneTypeValue(src, types[k])]
    case None => types + [CloneTypeValue(src, TypeValue(src.name, []))]
  }

  lemma CloneTechniquesIntoStep(ts: seq<TechniqueValue>, srcs: seq<TechniqueValue>, i: nat)
    requires i < |srcs|
    ensures CloneTechniquesInto(ts, srcs[..i + 1]) == AddTechniqueClone(CloneTechniquesInto(ts, srcs[..i]), srcs[i])
  {
    assert srcs[..i + 1][..i] == srcs[..i];
  }

  /** The types after each type of `srcs` was cloned into them, in order (FCDExtra::Clone). */
  function CloneTypesInto(types: seq<TypeValue>, srcs: seq<TypeValue>): seq<TypeValue>
  {
    if srcs == [] then types
    else AddTypeClone(CloneTypesInto(types, srcs[..|srcs| - 1]), srcs[|srcs| - 1])
  }

  lemma CloneTypesIntoStep(types: seq<TypeValue>, srcs: seq<TypeValue>, i: nat)
    requires i < |srcs|
    ensures CloneTypesInto(types, srcs[..i + 1]) == AddTypeClone(CloneTypesInto(types, srcs[..i]), srcs[i])
  {
    assert srcs[..i + 1][..i] == srcs[..i];
  }

  /** At most one technique per profile, and every node well-formed. */
  ghost predicate WellFormedType(t: TypeValue)
  {
    && UniqueProfiles(t.techniques)
    && (forall i :: 0 <= i < |t.techniques| ==> WellFormedNode(t.techniques[i].node))
  }

  /** The default type with the empty name comes first, type names are unique, and every type is well-formed. */
  ghost predicate WellFormedExtra(types: seq<TypeValue>)
  {
    && |types| > 0 && types[0].name == ""
    && UniqueTypeNames(types)
    && (forall i :: 0 <= i < |types| ==> WellFormedType(types[i]))
  }

  /** No two types share a name. */
  predicate UniqueTypeNames(types: seq<TypeValue>)
  {
    forall i, j :: 0 <= i < j < |types| ==> types[i].name != types[j].name
  }

  /** No two techniques share a profile. */
  predicate UniqueProfiles(ts: seq<TechniqueValue>)
  {
    forall i, j :: 0 <= i < j < |ts| ==> ts[i].profile != ts[j].profile
  }

  /** Cloning the technique into a new technique of its profile gives it back. */
  predicate ClonesToItself(t: TechniqueValue)
  {
    CloneTechniqueValue(t, TechniqueValue(t.profile, EmptyNode)) == t
  }

  lemma CloneTechniqueIsCopy(t: TechniqueValue)
    requires WellFormedNode(t.node)
    ensures ClonesToItself(t)
  {
    CloneNodeIsCopy(t.node);
  }

  /** Cloning techniques with distinct profiles into a new type reproduces them. */
  lemma {:induction false} CloneTechniquesIntoEmpty(ts: seq<TechniqueValue>)
    requires UniqueProfiles(ts)
    requires forall i :: 0 <= i < |ts| ==> ClonesToItself(ts[i])
    ensures CloneTechniquesInto([], ts) == ts
  {
    if ts != [] {
      var init := ts[..|ts| - 1];
      var last := ts[|ts| - 1];
      assert ts == init + [last];
      CloneTechniquesIntoEmpty(init);
      assert FindTechniqueIndex(init, last.profile) == None;
      var copy := CloneTechniqueValue(last, TechniqueValue(last.profile, EmptyNode));
      assert AddTechniqueClone(init, last) == init + [copy];
      assert copy == last;
    }
  }

  lemma CloneTypeIsCopy(t: TypeValue)
    requires WellFormedType(t)
    ensures CloneTypeValue(t, TypeValue(t.name, [])) == t
  {
    forall i | 0 <= i < |t.techniques|
      ensures ClonesToItself(t.techniques[i])
    {
      CloneTechniqueIsCopy(t.techniques[i]);
    }
    CloneTechniquesIntoEmpty(t.techniques);
  }

  /**
   * Cloning a well-formed extra into a new extra, which starts with the
   * default empty-named type, reproduces it: the default type is found and
   * filled instead of being duplicated.
   */
  lemma {:induction false} CloneTypesIntoDefault(types: seq<TypeValue>)
    requires WellFormedExtra(types)
    ensures CloneTypesInto([TypeValue("", [])], types) == types
  {
    forall i | 0 <= i < |types|
      ensures TypeClonesToItself(types[i])
    {
      CloneTypeIsCopy(types[i]);
    }
    CloneTypesPrefix(types, |types|);
    assert types[..|types|] == types;
  }

  /** Cloning `t` into a new empty type of its own name gives back `t`. */
  predicate TypeClonesToItself(t: TypeValue)
  {
    CloneTypeValue(t, TypeValue(t.name, [])) == t
  }

  lemma {:induction false} CloneTypesPrefix(types: seq<TypeValue>, n: nat)
    requires 1 <= n <= |types| && types[0].name == ""
    requires UniqueTypeNames(types)
    requires forall i :: 0 <= i < |types| ==> TypeClonesToItself(types[i])
    ensures CloneTypesInto([TypeValue("", [])], types[..n]) == types[..n]
  {
    var prefix := types[..n];
    var init := types[..n - 1];
    var last := types[n - 1];
    assert prefix[..n - 1] == init && prefix[n - 1] == last;
    assert prefix == init + [last];
    assert TypeClonesToItself(last);
    var before := CloneTypesInto([TypeValue("", [])], init);
    assert CloneTypesInto([TypeValue("", [])], prefix) == AddTypeClone(before, last);
    if n == 1 {
      assert before == [TypeValue("", [])];
      assert FindTypeIndex(before, last.name) == Some(0);
    } else {
      CloneTypesPrefix(types, n - 1);
      assert before == init;
      assert FindTypeIndex(init, last.name) == None by {
        forall k | 0 <= k < |init| ensures init[k].name != last.name {
          assert init[k] == types[k];
        }
      }
    }
  }

  // ---------------------------------------------------------------------
  // Extra tree nodes (FCDENode)
  // ---------------------------------------------------------------------

  /** The children of `cs` called `name`, in order (FCDENode::FindChildrenNodes). */
  function ChildrenNamed(cs: seq<ENode>, name: string): seq<ENode>
    reads cs
  {
    if cs == [] then []
    else (if cs[0].name == name then [cs[0]] else []) + ChildrenNamed(cs[1..], name)
  }

  /** The children of `cs` that have no children of their own (FCDENode::FindParameters). */
  function Leaves(cs: seq<ENode>): seq<ENode>
    reads cs
  {
    if cs == [] then []
    else (if cs[0].children == [] then [cs[0]] else []) + Leaves(cs[1..])
  }

  function NamesOf(ns: seq<ENode>): seq<string>
    reads ns
  {
    if ns == [] then [] else [ns[0].name] + NamesOf(ns[1..])
  }

  /**
   * The children `cs` of `parent`, whose footprint is `R`: each child lies
   * in `R` with its own footprint, which excludes `parent`, each is valid,
   * and `trees` lists their abstract values.
   */
  ghost predicate ChildrenValid(parent: ENode, cs: seq<ENode>, trees: seq<NodeValue>, R: set<object>)
    reads R - {parent}
    decreases R, 0
  {
    && parent in R
    && |trees| == |cs|
    && forall i :: 0 <= i < |cs| ==>
         && cs[i] in R && cs[i] != parent
         && cs[i].Repr <= R && parent !in cs[i].Repr
         && cs[i].Valid()
         && trees[i] == cs[i].Tree
  }

  lemma ChildrenValidAppend(parent: ENode, cs: seq<ENode>, trees: seq<NodeValue>, R: set<object>, c: ENode)
    requires ChildrenValid(parent, cs, trees, R)
    requires c.Valid() && parent !in c.Repr && R !! c.Repr
    ensures ChildrenValid(parent, cs + [c], trees + [c.Tree], R + c.Repr)
  {
  }

  class ENode {
    var name: string
    var content: string
    var attributes: seq<Attribute>
    var children: seq<ENode>
    ghost var Tree: NodeValue
    ghost var Repr: set<object>

    ghost predicate Valid()
      reads this, Repr
      decreases Repr, 1
    {
      && this in Repr
      && AttributesWellFormed(attributes)
      && Tree.name == name && Tree.content == content && Tree.attributes == attributes
      && ChildrenValid(this, children, Tree.children, Repr)
    }

    /** Every node below a valid node has well-formed attributes. */
    lemma {:induction false} TreeWellFormed()
      requires Valid()
      ensures WellFormedNode(Tree)
      decreases Repr, 1
    {
      forall i | 0 <= i < |children|
        ensures WellFormedNode(Tree.children[i])
      {
        children[i].TreeWellFormed();
      }
    }

    /** The children's names agree with the abstract value. */
    lemma ChildrenNamesMatch()
      requires Valid()
      ensures |Tree.children| == |children|
      ensures forall k :: 0 <= k < |children| ==> children[k].name == Tree.children[k].name
    {
      forall k | 0 <= k < |children|
        ensures children[k].name == Tree.children[k].name
      {
        assert children[k].Valid();
      }
    }

    /** The first child found by name is valid and carries the value found on the abstract tree. */
    lemma ChildTreeMatch(c: ENode)
      requires Valid() && c == FirstNamed(children, c.name)
      ensures c.Valid() && ChildNamed(Tree, c.name) == Some(c.Tree)
    {
      ChildrenNamesMatch();
      var k := FirstNamedIndex(children, c.name);
      assert c == children[k];
      FirstChildNamedAt(Tree.children, k, c.name);
    }

    constructor ()
      ensures Valid() && fresh(Repr) && Repr == {this}
      ensures Tree == EmptyNode
      ensures name == "" && content == "" && attributes == [] && children == []
    {
      name := "";
      content := "";
      attributes := [];
      children := [];
      Tree := EmptyNode;
      Repr := {this};
    }

    /** Replaces the content; mixed content is not allowed, so every child is released. */
    method SetContent(s: string)
      requires Valid()
      modifies this
      ensures Valid() && Repr == {this}
      ensures name == old(name) && attributes == old(attributes)
      ensures content == s && children == []
      ensures Tree == old(Tree).(content := s, children := [])
    {
      while children != []
        invariant children == old(children)[..|children|]
        invariant name == old(name) && attributes == old(attributes)
        decreases |children|
      {
        children := children[..|children| - 1];
      }
      content := s;
      Repr := {this};
      Tree := NodeValue(name, s, attributes, []);
    }

    /** Stores the sanitised form of `n` as the node's name. */
    method SetName(n: string)
      requires Valid()
      modifies this
      ensures Valid() && Repr == old(Repr)
      ensures name == CleanedNodeName(n) && IsNodeName(name)
      ensures content == old(content) && attributes == old(attributes) && children == old(children)
      ensures Tree == old(Tree).(name := name)
    {
      var clean := CleanString(n);
      name := clean;
      Tree := Tree.(name := clean);
    }

    /** The first child called `n`, or null. */
    method FindChildNode(n: string) returns (r: ENode?)
      ensures r == FirstNamed(children, n)
      ensures r != null ==> r in children && r.name == n
      ensures r == null <==> forall i :: 0 <= i < |children| ==> children[i].name != n
    {
      var i := 0;
      while i < |children|
        invariant 0 <= i <= |children|
        invariant forall k :: 0 <= k < i ==> children[k].name != n
      {
        if children[i].name == n {
          FirstNamedAt(children, i, n);
          return children[i];
        }
        i := i + 1;
      }
      return null;
    }

    /**
     * FCDENode::FindParameter: the same search as FindChildNode, over leaves
     * and inner nodes alike.
     */
    method FindParameter(n: string) returns (r: ENode?)
      ensures r == FirstNamed(children, n)
      ensures r != null ==> r in children && r.name == n
      ensures r == null <==> forall i :: 0 <= i < |children| ==> children[i].name != n
    {
      r := FindChildNode(n);
    }

    /** Appends to `nodes` every child called `n`. */
    method FindChildrenNodes(n: string, nodes: seq<ENode>) returns (result: seq<ENode>)
      ensures result == nodes + ChildrenNamed(children, n)
    {
      result := nodes;
      var i := 0;
      while i < |children|
        invariant 0 <= i <= |children|
        invariant result == nodes + ChildrenNamed(children[..i], n)
      {
        var c := children[i];
        ChildrenNamedSplit(children[..i], [c], n);
        assert children[..i + 1] == children[..i] + [c];
        if c.name == n {
          result := result + [c];
        }
        AppendAssoc(nodes, ChildrenNamed(children[..i], n), ChildrenNamed([c], n));
        i := i + 1;
      }
      assert children[..i] == children;
    }

    /** Appends every childless child to `nodes` and its name to `names`. */
    method FindParameters(nodes: seq<ENode>, names: seq<string>) returns (rNodes: seq<ENode>, rNames: seq<string>)
      ensures rNodes == nodes + Leaves(children)
      ensures rNames == names + NamesOf(Leaves(children))
    {
      var cs := children;
      rNodes, rNames := nodes, names;
      var i := 0;
      while i < |cs|
        invariant 0 <= i <= |cs|
        invariant rNodes == nodes + Leaves(cs[..i])
        invariant rNames == names + NamesOf(Leaves(cs[..i]))
      {
        var c := cs[i];
        var leaf := c.children == [];
        LeavesStep(cs, i);
        if leaf {
          rNodes := rNodes + [c];
          rNames := rNames + [c.name];
        }
        AppendAssoc(nodes, Leaves(cs[..i]), if leaf then [c] else []);
        AppendAssoc(names, NamesOf(Leaves(cs[..i])), if leaf then [c.name] else []);
        i := i + 1;
      }
      assert cs[..i] == cs;
    }

    /** The first attribute called `n`, if any. */
    method FindAttribute(n: string) returns (r: Option<Attribute>)
      ensures r.Some? <==> FindAttributeIndex(attributes, n).Some?
      ensures r.Some? ==> r.value == attributes[FindAttributeIndex(attributes, n).value]
      ensures r.Some? ==> r.value in attributes && r.value.name == n
      ensures r.None? <==> forall a :: a in attributes ==> a.name != n
    {
      var i := 0;
      while i < |attributes|
        invariant 0 <= i <= |attributes|
        invariant forall k :: 0 <= k < i ==> attributes[k].name != n
      {
        if attributes[i].name == n {
          assert FindAttributeIndex(attributes, n) == Some(i);
          return Some(attributes[i]);
        }
        i := i + 1;
      }
      return None;
    }

    /** Position of the first attribute called `n`, if any. */
    method AttributeIndex(n: string) returns (r: Option<nat>)
      ensures r == FindAttributeIndex(attributes, n)
    {
      var i := 0;
      while i < |attributes|
        invariant 0 <= i <= |attributes|
        invariant forall k :: 0 <= k < i ==> attributes[k].name != n
      {
        if attributes[i].name == n {
          return Some(i);
        }
        i := i + 1;
      }
      return None;
    }

    /** The value of the attribute called `n`, or the empty string. */
    method ReadAttribute(n: string) returns (r: string)
      ensures r == AttributeValue(attributes, n)
      ensures (forall a :: a in attributes ==> a.name != n) ==> r == ""
      ensures (exists a :: a in attributes && a.name == n) ==> Attribute(n, r) in attributes
    {
      var a := FindAttribute(n);
      r := if a.Some? then a.value.value else "";
    }

    /**
     * Sanitises `attributeName` (the source cleans the caller's string in
     * place; the cleaned name is returned) and sets the attribute of that
     * name, adding it when it is missing.
     */
    method AddAttribute(attributeName: string, value: string) returns (cleanName: string)
      requires Valid()
      modifies this
      ensures Valid() && Repr == old(Repr)
      ensures cleanName == CleanedNodeName(attributeName)
      ensures attributes == UpsertAttribute(old(attributes), cleanName, value)
      ensures AttributeValue(attributes, cleanName) == value
      ensures name == old(name) && content == old(content) && children == old(children)
      ensures Tree == old(Tree).(attributes := attributes)
    {
      cleanName := CleanString(attributeName);
      UpsertAttributeProperties(attributes, cleanName, value);
      var k := AttributeIndex(cleanName);
      if k.None? {
        attributes := attributes + [Attribute(cleanName, value)];
      } else {
        attributes := attributes[k.value := Attribute(cleanName, value)];
      }
      Tree := Tree.(attributes := attributes);
    }

    /** Appends a new, empty child node. */
    method AddChildNode() returns (node: ENode)
      requires Valid()
      modifies this
      ensures Valid() && fresh(node) && Repr == old(Repr) + {node}
      ensures node.Valid() && node.Repr == {node} && node.Tree == EmptyNode
      ensures children == old(children) + [node]
      ensures name == old(name) && content == old(content) && attributes == old(attributes)
      ensures Tree == old(Tree).(children := old(Tree.children) + [EmptyNode])
    {
      node := new ENode();
      ChildrenValidAppend(this, children, Tree.children, Repr, node);
      children := children + [node];
      Repr := Repr + {node};
      Tree := Tree.(children := Tree.children + [EmptyNode]);
    }

    /** Appends a new child node named with the sanitised `n`. */
    method AddNamedChildNode(n: string) returns (node: ENode)
      requires Valid()
      modifies this
      ensures Valid() && fresh(node) && Repr == old(Repr) + {node}
      ensures node.Valid() && node.Repr == {node}
      ensures node.Tree == EmptyNode.(name := CleanedNodeName(n))
      ensures children == old(children) + [node]
      ensures name == old(name) && content == old(content) && attributes == old(attributes)
      ensures Tree == old(Tree).(children := old(Tree.children) + [node.Tree])
    {
      ghost var oldChildren, oldTrees, oldRepr := children, Tree.children, Repr;
      node := new ENode();
      children := children + [node];
      node.SetName(n);
      ChildrenValidAppend(this, oldChildren, oldTrees, oldRepr, node);
      Repr := Repr + {node};
      Tree := Tree.(children := Tree.children + [node.Tree]);
    }

    /** Appends a child leaf with the sanitised name `n` and the content `value`. */
    method AddParameter(n: string, value: string) returns (node: ENode)
      requires Valid()
      modifies this
      ensures Valid() && fresh(node) && Repr == old(Repr) + {node}
      ensures node.Valid() && node.Repr == {node}
      ensures node.Tree == NodeValue(CleanedNodeName(n), value, [], [])
      ensures children == old(children) + [node]
      ensures name == old(name) && content == old(content) && attributes == old(attributes)
      ensures Tree == old(Tree).(children := old(Tree.children) + [node.Tree])
    {
      ghost var oldChildren, oldTrees, oldRepr := children, Tree.children, Repr;
      node := AddChildNode();
      node.SetName(n);
      node.SetContent(value);
      ChildrenValidAppend(this, oldChildren, oldTrees, oldRepr, node);
      Tree := Tree.(children := oldTrees + [node.Tree]);
    }

    /** Overwrites the name and the content as they are, without cleaning the name. */
    method Overwrite(n: string, c: string)
      requires Valid()
      modifies this
      ensures Valid() && Repr == old(Repr)
      ensures Tree == old(Tree).(name := n, content := c)
      ensures name == n && content == c && attributes == old(attributes) && children == old(children)
    {
      name, content := n, c;
      Tree := Tree.(name := n, content := c);
    }

    /** Adds the attributes `src` one by one, as AddAttribute does. */
    method AddAttributes(src: seq<Attribute>)
      requires Valid()
      modifies this
      ensures Valid() && Repr == old(Repr)
      ensures attributes == UpsertAttributes(old(attributes), src)
      ensures name == old(name) && content == old(content) && children == old(children)
      ensures Tree == old(Tree).(attributes := attributes)
    {
      var i := 0;
      while i < |src|
        invariant 0 <= i <= |src|
        invariant Valid() && Repr == old(Repr)
        invariant name == old(name) && content == old(content) && children == old(children)
        invariant attributes == UpsertAttributes(old(attributes), src[..i])
        invariant Tree == old(Tree).(attributes := attributes)
      {
        assert src[..i + 1][..i] == src[..i];
        var _ := AddAttribute(src[i].name, src[i].value);
        i := i + 1;
      }
      assert src[..i] == src;
    }

    /** Appends a fresh child and clones `s` into it. `bound` strictly contains the footprint of `s`. */
    method AppendClone(s: ENode, ghost bound: set<object>)
      requires Valid() && s.Valid() && s.Repr < bound && s.Repr !! Repr
      modifies this
      ensures Valid() && old(Repr) <= Repr && fresh(Repr - old(Repr))
      ensures name == old(name) && content == old(content) && attributes == old(attributes)
      ensures Tree == old(Tree).(children := old(Tree.children) + [CloneNodeValue(old(s.Tree), EmptyNode)])
      decreases bound, 1
    {
      var cc := new ENode();
      var _ := s.Clone(cc);
      ChildrenValidAppend(this, children, Tree.children, Repr, cc);
      children := children + [cc];
      Repr := Repr + cc.Repr;
      Tree := Tree.(children := Tree.children + [cc.Tree]);
    }

    /**
     * Appends to this node, for each node of `src`, a fresh child into
     * which that node is cloned. `srcTrees` names the abstract values of
     * `src`, and `bound` strictly contains every footprint of `src`.
     */
    method AppendClones(src: seq<ENode>, ghost srcTrees: seq<NodeValue>, ghost bound: set<object>)
      requires Valid()
      requires |srcTrees| == |src|
      requires forall k :: 0 <= k < |src| ==>
                 src[k].Valid() && src[k].Tree == srcTrees[k] && src[k].Repr < bound && src[k].Repr !! Repr
      modifies this
      ensures Valid() && old(Repr) <= Repr && fresh(Repr - old(Repr))
      ensures name == old(name) && content == old(content) && attributes == old(attributes)
      ensures Tree == old(Tree).(children := old(Tree.children) +
                 seq(|src|, k requires 0 <= k < |src| => CloneNodeValue(srcTrees[k], EmptyNode)))
      decreases bound, 2
    {
      var j := 0;
      while j < |src|
        invariant 0 <= j <= |src|
        invariant Valid() && old(Repr) <= Repr && fresh(Repr - old(Repr))
        invariant forall k :: 0 <= k < |src| ==> src[k].Valid() && src[k].Tree == srcTrees[k] && src[k].Repr !! Repr
        invariant name == old(name) && content == old(content) && attributes == old(attributes)
        invariant Tree == old(Tree).(children := old(Tree.children) +
                    seq(j, k requires 0 <= k < j => CloneNodeValue(srcTrees[k], EmptyNode)))
      {
        AppendClone(src[j], bound);
        j := j + 1;
      }
    }

    /**
     * Copies this node into `clone`: name and content are overwritten, the
     * attributes are added one by one, and each child is deep-copied into a
     * fresh child appended to `clone`. A null target yields null.
     */
    method Clone(clone: ENode?) returns (r: ENode?)
      requires Valid()
      requires clone != null ==> clone.Valid() && Repr !! clone.Repr
      modifies clone
      ensures clone == null ==> r == null
      ensures clone != null ==> r == clone && clone.Valid()
      ensures clone != null ==> old(clone.Repr) <= clone.Repr && fresh(clone.Repr - old(clone.Repr))
      ensures clone != null ==> clone.Tree == CloneNodeValue(old(Tree), old(clone.Tree))
      ensures Valid() && Tree == old(Tree)
      decreases Repr, 3
    {
      if clone == null {
        return null;
      }
      r := clone;
      clone.Overwrite(name, content);
      clone.AddAttributes(attributes);
      clone.AppendClones(children, Tree.children, Repr);
    }
  }

  function FirstNamed(cs: seq<ENode>, n: string): (r: ENode?)
    reads cs
    ensures r == (if ChildrenNamed(cs, n) == [] then null else ChildrenNamed(cs, n)[0])
    ensures r != null ==> r in cs && r.name == n
    ensures r == null <==> forall i :: 0 <= i < |cs| ==> cs[i].name != n
  {
    if cs == [] then null
    else if cs[0].name == n then cs[0]
    else FirstNamed(cs[1..], n)
  }

  lemma {:induction false} FirstNamedAt(cs: seq<ENode>, i: nat, n: string)
    requires i < |cs| && cs[i].name == n
    requires forall k :: 0 <= k < i ==> cs[k].name != n
    ensures FirstNamed(cs, n) == cs[i]
  {
    if i > 0 {
      FirstNamedAt(cs[1..], i - 1, n);
    }
  }

  /** Position of the node FirstNamed returns. */
  lemma FirstNamedIndex(cs: seq<ENode>, n: string) returns (k: nat)
    requires FirstNamed(cs, n) != null
    ensures k < |cs| && cs[k] == FirstNamed(cs, n)
    ensures forall j :: 0 <= j < k ==> cs[j].name != n
  {
    if cs[0].name == n {
      k := 0;
    } else {
      var k' := FirstNamedIndex(cs[1..], n);
      k := k' + 1;
    }
  }

  lemma {:induction false} FirstChildNamedAt(cs: seq<NodeValue>, i: nat, n: string)
    requires i < |cs| && cs[i].name == n
    requires forall k :: 0 <= k < i ==> cs[k].name != n
    ensures FirstChildNamed(cs, n) == Some(cs[i])
  {
    if i > 0 {
      FirstChildNamedAt(cs[1..], i - 1, n);
    }
  }

  lemma ChildrenNamedSplit(a: seq<ENode>, b: seq<ENode>, n: string)
    ensures ChildrenNamed(a + b, n) == ChildrenNamed(a, n) + ChildrenNamed(b, n)
  {
    if a != [] {
      assert (a + b)[1..] == a[1..] + b;
      ChildrenNamedSplit(a[1..], b, n);
    } else {
      assert a + b == b;
    }
  }

  lemma LeavesSplit(a: seq<ENode>, b: seq<ENode>)
    ensures Leaves(a + b) == Leaves(a) + Leaves(b)
  {
    if a != [] {
      assert (a + b)[1..] == a[1..] + b;
      LeavesSplit(a[1..], b);
    } else {
      assert a + b == b;
    }
  }

  lemma NamesOfSplit(a: seq<ENode>, b: seq<ENode>)
    ensures NamesOf(a + b) == NamesOf(a) + NamesOf(b)
  {
    if a != [] {
      assert (a + b)[1..] == a[1..] + b;
      NamesOfSplit(a[1..], b);
    } else {
      assert a + b == b;
    }
  }

  /** One more child scanned by FindParameters: it is kept, with its name, exactly when it is a leaf. */
  lemma LeavesStep(cs: seq<ENode>, i: nat)
    requires i < |cs|
    ensures Leaves(cs[..i + 1]) == Leaves(cs[..i]) + (if cs[i].children == [] then [cs[i]] else [])
    ensures NamesOf(Leaves(cs[..i + 1])) == NamesOf(Leaves(cs[..i])) + (if cs[i].children == [] then [cs[i].name] else [])
  {
    assert cs[..i + 1] == cs[..i] + [cs[i]];
    LeavesSplit(cs[..i], [cs[i]]);
    assert Leaves([cs[i]]) == (if cs[i].children == [] then [cs[i]] else []);
    NamesOfSplit(Leaves(cs[..i]), Leaves([cs[i]]));
  }

  lemma AppendAssoc<T>(a: seq<T>, b: seq<T>, c: seq<T>)
    ensures a + (b + c) == (a + b) + c
  {
  }

  /** ChildrenNamed keeps exactly the nodes called `name`. */
  lemma {:induction false} ChildrenNamedExact(cs: seq<ENode>, name: string)
    ensures forall n :: n in ChildrenNamed(cs, name) <==> n in cs && n.name == name
  {
    if cs != [] {
      ChildrenNamedExact(cs[1..], name);
      assert forall n :: n in cs <==> n == cs[0] || n in cs[1..];
    }
  }

  /** Leaves keeps exactly the childless nodes. */
  lemma {:induction false} LeavesExact(cs: seq<ENode>)
    ensures forall n :: n in Leaves(cs) <==> n in cs && n.children == []
  {
    if cs != [] {
      LeavesExact(cs[1..]);
      assert forall n :: n in cs <==> n == cs[0] || n in cs[1..];
    }
  }

  /** NamesOf lists the names position by position. */
  lemma {:induction false} NamesOfExact(ns: seq<ENode>)
    ensures |NamesOf(ns)| == |ns|
    ensures forall i :: 0 <= i < |ns| ==> NamesOf(ns)[i] == ns[i].name
  {
    if ns != [] {
      NamesOfExact(ns[1..]);
    }
  }

  // ---------------------------------------------------------------------
  // Techniques (FCDETechnique)
  // ---------------------------------------------------------------------

  /**
   * A technique is a root node tagged with an application profile. The
   * source derives the technique from the node class; here the technique
   * owns its root node.
   */
  class ETechnique {
    var profile: string
    const node: ENode
    ghost var Repr: set<object>

    ghost predicate Valid()
      reads this, Repr
    {
      && this in Repr
      && node in Repr && node.Repr <= Repr && this !in node.Repr
      && node.Valid()
    }

    ghost function Value(): TechniqueValue
      reads this, node
    {
      TechniqueValue(profile, node.Tree)
    }

    constructor (profile: string)
      ensures Valid() && fresh(Repr)
      ensures this.profile == profile && Value() == TechniqueValue(profile, EmptyNode)
    {
      this.profile := profile;
      node := new ENode();
      new;
      Repr := {this} + node.Repr;
    }

    /** The root node has children exactly when its abstract value has. */
    lemma ChildCount()
      requires Valid()
      ensures |node.children| == |Value().node.children|
    {
      node.ChildrenNamesMatch();
    }

    /**
     * Copies this technique into `clone`, or into a new technique when
     * `clone` is null: the profile is overwritten and the root node is
     * cloned as FCDENode::Clone does.
     */
    method Clone(clone: ETechnique?) returns (r: ETechnique)
      requires Valid()
      requires clone != null ==> clone.Valid() && Repr !! clone.Repr
      modifies if clone != null then {clone, clone.node} else {}
      ensures Valid() && Value() == old(Value())
      ensures r.Valid()
      ensures clone == null ==> fresh(r.Repr)
      ensures clone == null ==> r.Value() == CloneTechniqueValue(Value(), TechniqueValue(profile, EmptyNode))
      ensures clone != null ==> r == clone && old(clone.Repr) <= r.Repr && fresh(r.Repr - old(clone.Repr))
      ensures clone != null ==> r.Value() == CloneTechniqueValue(Value(), old(clone.Value()))
    {
      if clone == null {
        r := new ETechnique(profile);
      } else {
        r := clone;
        r.profile := profile;
      }
      var _ := node.Clone(r.node);
      r.Repr := r.Repr + r.node.Repr;
    }
  }

  // ---------------------------------------------------------------------
  // Types (FCDEType)
  // ---------------------------------------------------------------------

  /**
   * The techniques `ts` of `owner`, whose footprint is `R`: each technique
   * lies in `R` with its own footprint, which excludes `owner`, each is
   * valid, the footprints are pairwise disjoint, and `vals` lists their
   * abstract values.
   */
  ghost predicate TechniquesValid(owner: EType, ts: seq<ETechnique>, vals: seq<TechniqueValue>, R: set<object>)
    reads R - {owner}
  {
    && owner in R
    && |vals| == |ts|
    && (forall i :: 0 <= i < |ts| ==>
          && ts[i] in R - {owner}
          && ts[i].Repr <= R && owner !in ts[i].Repr
          && ts[i].Valid()
          && vals[i] == ts[i].Value())
    && (forall i, j :: 0 <= i < j < |ts| ==> ts[i].Repr !! ts[j].Repr)
  }

  lemma UniqueProfilesAppend(ts: seq<TechniqueValue>, t: TechniqueValue)
    requires UniqueProfiles(ts) && FindTechniqueIndex(ts, t.profile).None?
    ensures UniqueProfiles(ts + [t])
  {
  }

  lemma UniqueProfilesUpdate(ts: seq<TechniqueValue>, k: nat, t: TechniqueValue)
    requires UniqueProfiles(ts) && k < |ts| && t.profile == ts[k].profile
    ensures UniqueProfiles(ts[k := t])
  {
    var r := ts[k := t];
    forall i, j | 0 <= i < j < |r|
      ensures r[i].profile != r[j].profile
    {
      assert r[i].profile == ts[i].profile && r[j].profile == ts[j].profile;
    }
  }

  lemma TechniquesValidAppend(owner: EType, ts: seq<ETechnique>, vals: seq<TechniqueValue>, R: set<object>, t: ETechnique)
    requires TechniquesValid(owner, ts, vals, R)
    requires t.Valid() && owner !in t.Repr && R !! t.Repr
    ensures TechniquesValid(owner, ts + [t], vals + [t.Value()], R + t.Repr)
  {
  }

  /** A named group of techniques, at most one per profile. */
  class EType {
    const name: string
    var techniques: seq<ETechnique>
    ghost var Contents: seq<TechniqueValue>
    ghost var Repr: set<object>

    ghost predicate Valid()
      reads this, Repr
    {
      && this in Repr
      && TechniquesValid(this, techniques, Contents, Repr)
      && UniqueProfiles(Contents)
    }

    ghost function Value(): TypeValue
      reads this
    {
      TypeValue(name, Contents)
    }

    constructor (name: string)
      ensures Valid() && fresh(Repr)
      ensures this.name == name && techniques == [] && Value() == TypeValue(name, [])
    {
      this.name := name;
      techniques := [];
      Contents := [];
      Repr := {this};
    }

    /** The technique of profile `profile`, or null. */
    method FindTechnique(profile: string) returns (r: ETechnique?)
      requires Valid()
      ensures r == null <==> FindTechniqueIndex(Contents, profile).None?
      ensures r != null ==> r == techniques[FindTechniqueIndex(Contents, profile).value] && r.profile == profile
    {
      var i := 0;
      while i < |techniques|
        invariant 0 <= i <= |techniques|
        invariant forall k :: 0 <= k < i ==> Contents[k].profile != profile
      {
        if techniques[i].profile == profile {
          assert Contents[i].profile == profile;
          assert FindTechniqueIndex(Contents, profile) == Some(i);
          return techniques[i];
        }
        i := i + 1;
      }
      return null;
    }

    /**
     * The technique of profile `profile`, added when missing. `index` is
     * its position.
     */
    method AddTechnique(profile: string) returns (t: ETechnique, ghost index: nat)
      requires Valid()
      modifies this
      ensures Valid() && old(Repr) <= Repr && fresh(Repr - old(Repr))
      ensures index < |techniques| && techniques[index] == t && t.profile == profile
      ensures t.Valid() && t.Repr <= Repr && this !in t.Repr
      ensures FindTechniqueIndex(old(Contents), profile).Some? ==>
                index == FindTechniqueIndex(old(Contents), profile).value &&
                techniques == old(techniques) && Contents == old(Contents) && Repr == old(Repr)
      ensures FindTechniqueIndex(old(Contents), profile).None? ==>
                fresh(t.Repr) && techniques == old(techniques) + [t] &&
                Contents == old(Contents) + [TechniqueValue(profile, EmptyNode)] && Repr == old(Repr) + t.Repr
    {
      var found := FindTechnique(profile);
      if found != null {
        t := found;
        index := FindTechniqueIndex(Contents, profile).value;
      } else {
        t := AppendTechnique(profile);
        index := |techniques| - 1;
      }
    }

    /** Appends a new technique of a profile that is not present yet. */
    method AppendTechnique(profile: string) returns (t: ETechnique)
      requires Valid() && FindTechniqueIndex(Contents, profile).None?
      modifies this
      ensures Valid() && fresh(t.Repr) && Repr == old(Repr) + t.Repr
      ensures t.Valid() && this !in t.Repr && t.profile == profile
      ensures techniques == old(techniques) + [t]
      ensures Contents == old(Contents) + [TechniqueValue(profile, EmptyNode)]
    {
      t := new ETechnique(profile);
      TechniquesValidAppend(this, techniques, Contents, Repr, t);
      UniqueProfilesAppend(Contents, t.Value());
      techniques := techniques + [t];
      Contents := Contents + [t.Value()];
      Repr := Repr + t.Repr;
    }

    /** The first child called `n` of the first technique that has one, or null. */
    method FindRootNode(n: string) returns (r: ENode?)
      requires Valid()
      ensures r == null <==> RootNodeValue(Contents, n).None?
      ensures r != null ==> r.name == n && r.Valid() && RootNodeValue(Contents, n) == Some(r.Tree)
    {
      var i := 0;
      while i < |techniques|
        invariant 0 <= i <= |techniques|
        invariant RootNodeValue(Contents, n) == RootNodeValue(Contents[i..], n)
      {
        techniques[i].node.ChildrenNamesMatch();
        r := techniques[i].node.FindChildNode(n);
        if r != null {
          techniques[i].node.ChildTreeMatch(r);
          return;
        }
        assert Contents[i..][1..] == Contents[i + 1..];
        i := i + 1;
      }
      return null;
    }

    /**
     * Copies this type into `clone`, or into a new type of the same name
     * when `clone` is null: for each technique, the technique of the same
     * profile is found or added in the target and the technique is cloned
     * into it.
     */
    method Clone(clone: EType?) returns (r: EType)
      requires Valid()
      requires clone != null ==> clone.Valid() && Repr !! clone.Repr
      modifies if clone != null then clone.Repr else {}
      ensures Valid() && Value() == old(Value())
      ensures r.Valid()
      ensures clone == null ==> fresh(r.Repr) && r.Value() == CloneTypeValue(Value(), TypeValue(name, []))
      ensures clone != null ==> r == clone && old(clone.Repr) <= r.Repr && fresh(r.Repr - old(clone.Repr))
      ensures clone != null ==> r.Value() == CloneTypeValue(Value(), old(clone.Value()))
    {
      if clone == null {
        r := new EType(name);
      } else {
        r := clone;
      }
      CloneTechniquesTo(r);
    }

    /** The facts Valid() keeps about the technique at `i`. */
    lemma TechniqueAt(i: nat)
      requires Valid() && i < |techniques|
      ensures techniques[i].Valid() && techniques[i].Repr <= Repr && this !in techniques[i].Repr
      ensures techniques[i].Value() == Contents[i]
    {
    }

    /** A valid type holds a well-formed abstract value. */
    lemma ValueWellFormed()
      requires Valid()
      ensures WellFormedType(Value())
    {
      forall i | 0 <= i < |Contents|
        ensures WellFormedNode(Contents[i].node)
      {
        TechniqueAt(i);
        techniques[i].node.TreeWellFormed();
      }
    }

    /** Clones each technique of this type, in order, into `r`. */
    method CloneTechniquesTo(r: EType)
      requires Valid() && r.Valid() && Repr !! r.Repr
      modifies r.Repr
      ensures Valid() && Value() == old(Value())
      ensures r.Valid() && old(r.Repr) <= r.Repr && fresh(r.Repr - old(r.Repr))
      ensures r.Contents == CloneTechniquesInto(old(r.Contents), Contents)
    {
      var i := 0;
      while i < |techniques|
        invariant 0 <= i <= |techniques|
        invariant r.Valid() && Repr !! r.Repr
        invariant old(r.Repr) <= r.Repr && fresh(r.Repr - old(r.Repr))
        invariant r.Contents == CloneTechniquesInto(old(r.Contents), Contents[..i])
      {
        TechniqueAt(i);
        CloneTechniquesIntoStep(old(r.Contents), Contents, i);
        var src := techniques[i];
        r.CloneTechniqueInto(src);
        i := i + 1;
      }
      assert Contents[..i] == Contents;
    }

    /** AddTechnique(src.profile) followed by a clone of `src` into the technique it returns. */
    method CloneTechniqueInto(src: ETechnique)
      requires Valid() && src.Valid() && src.Repr !! Repr
      modifies Repr
      ensures Valid() && old(Repr) <= Repr && fresh(Repr - old(Repr))
      ensures Contents == AddTechniqueClone(old(Contents), old(src.Value()))
    {
      var t, index := AddTechnique(src.profile);
      CloneAt(src, t, index);
    }

    /** Takes the new value and footprint of the technique at `index` into Contents and Repr. */
    ghost method Resync(index: nat)
      requires index < |techniques| && index < |Contents| && UniqueProfiles(Contents)
      requires techniques[index].profile == Contents[index].profile
      requires TechniquesValid(this, techniques, Contents[index := techniques[index].Value()], Repr + techniques[index].Repr)
      modifies this
      ensures Valid() && Repr == old(Repr) + techniques[index].Repr
      ensures techniques == old(techniques) && Contents == old(Contents)[index := techniques[index].Value()]
    {
      UniqueProfilesUpdate(Contents, index, techniques[index].Value());
      Repr := Repr + techniques[index].Repr;
      Contents := Contents[index := techniques[index].Value()];
    }

    /** Clones `src` into the technique at `index`, whose profile is that of `src`. */
    method CloneAt(src: ETechnique, t: ETechnique, ghost index: nat)
      requires Valid() && src.Valid() && src.Repr !! Repr
      requires index < |techniques| && techniques[index] == t && t.profile == src.profile
      modifies this, t, t.node
      ensures Valid() && old(Repr) <= Repr && fresh(Repr - old(Repr))
      ensures Contents == old(Contents)[index := CloneTechniqueValue(old(src.Value()), old(Contents[index]))]
    {
      ghost var ts, vals, R := techniques, Contents, Repr;
      TechniqueAt(index);
      var _ := src.Clone(t);
      forall i | 0 <= i < |ts| && i != index
        ensures ts[i].Repr == old(ts[i].Repr) && ts[i].Valid() && ts[i].Value() == vals[i]
      {
        assert old(ts[i].Repr) !! old(ts[index].Repr);
        assert ts[i] in old(ts[i].Repr);
        assert old(ts[i].Valid());
      }
      assert TechniquesValid(this, ts, vals[index := t.Value()], R + t.Repr);
      Resync(index);
    }
  }

  // ---------------------------------------------------------------------
  // Extra trees (FCDExtra)
  // ---------------------------------------------------------------------

  /**
   * The types `ts` of `owner`, whose footprint is `R`, laid out as
   * TechniquesValid lays out the techniques of a type.
   */
  ghost predicate TypesValid(owner: Extra, ts: seq<EType>, vals: seq<TypeValue>, R: set<object>)
    reads R - {owner}
  {
    && owner in R
    && |vals| == |ts|
    && (forall i :: 0 <= i < |ts| ==>
          && ts[i] in R - {owner}
          && ts[i].Repr <= R && owner !in ts[i].Repr
          && ts[i].Valid()
          && vals[i] == ts[i].Value())
    && (forall i, j :: 0 <= i < j < |ts| ==> ts[i].Repr !! ts[j].Repr)
  }

  lemma TypesValidAppend(owner: Extra, ts: seq<EType>, vals: seq<TypeValue>, R: set<object>, t: EType)
    requires TypesValid(owner, ts, vals, R)
    requires t.Valid() && owner !in t.Repr && R !! t.Repr
    ensures TypesValid(owner, ts + [t], vals + [t.Value()], R + t.Repr)
  {
  }

  lemma UniqueTypeNamesAppend(types: seq<TypeValue>, t: TypeValue)
    requires UniqueTypeNames(types) && FindTypeIndex(types, t.name).None?
    ensures UniqueTypeNames(types + [t])
  {
  }

  lemma UniqueTypeNamesUpdate(types: seq<TypeValue>, k: nat, t: TypeValue)
    requires UniqueTypeNames(types) && k < |types| && t.name == types[k].name
    ensures UniqueTypeNames(types[k := t])
  {
  }

  /** Some technique of some type has a root node with children (FCDExtra::HasContent). */
  predicate HasContentValue(types: seq<TypeValue>)
  {
    exists i, j :: 0 <= i < |types| && 0 <= j < |types[i].techniques| && types[i].techniques[j].node.children != []
  }

  /**
   * The extra information attached to an entity: a list of named types,
   * the first of which is the default type with the empty name.
   */
  class Extra {
    var types: seq<EType>
    ghost var Contents: seq<TypeValue>
    ghost var Repr: set<object>

    ghost predicate Valid()
      reads this, Repr
    {
      && this in Repr
      && TypesValid(this, types, Contents, Repr)
      && |Contents| > 0 && Contents[0].name == ""
      && UniqueTypeNames(Contents)
    }

    /** A new extra holds only the default type, with no techniques. */
    constructor ()
      ensures Valid() && fresh(Repr)
      ensures Contents == [TypeValue("", [])]
    {
      var t := new EType("");
      types := [t];
      Contents := [t.Value()];
      new;
      Repr := {this} + t.Repr;
    }

    /** The facts Valid() keeps about the type at `i`. */
    lemma TypeAt(i: nat)
      requires Valid() && i < |types|
      ensures types[i].Valid() && types[i].Repr <= Repr && this !in types[i].Repr
      ensures types[i].Value() == Contents[i] && types[i].name == Contents[i].name
    {
    }

    /** A valid extra holds a well-formed abstract value. */
    lemma ContentsWellFormed()
      requires Valid()
      ensures WellFormedExtra(Contents)
    {
      forall i | 0 <= i < |Contents|
        ensures WellFormedType(Contents[i])
      {
        TypeAt(i);
        types[i].ValueWellFormed();
      }
    }

    /** Cloning into a new extra, which holds only the default type, copies this extra. */
    lemma DefaultCloneIsCopy()
      requires Valid()
      ensures CloneTypesInto([TypeValue("", [])], Contents) == Contents
    {
      ContentsWellFormed();
      CloneTypesIntoDefault(Contents);
    }

    /** The type called `n`, or null. */
    method FindType(n: string) returns (r: EType?)
      requires Valid()
      ensures r == null <==> FindTypeIndex(Contents, n).None?
      ensures r != null ==> r == types[FindTypeIndex(Contents, n).value] && r.name == n
    {
      var i := 0;
      while i < |types|
        invariant 0 <= i <= |types|
        invariant forall k :: 0 <= k < i ==> Contents[k].name != n
      {
        if types[i].name == n {
          assert Contents[i].name == n;
          assert FindTypeIndex(Contents, n) == Some(i);
          return types[i];
        }
        i := i + 1;
      }
      return null;
    }

    /**
     * The type called `n`, added when missing. `index` is its position.
     */
    method AddType(n: string) returns (t: EType, ghost index: nat)
      requires Valid()
      modifies this
      ensures Valid() && old(Repr) <= Repr && fresh(Repr - old(Repr))
      ensures index < |types| && types[index] == t && t.name == n
      ensures t.Valid() && t.Repr <= Repr && this !in t.Repr
      ensures FindTypeIndex(old(Contents), n).Some? ==>
                index == FindTypeIndex(old(Contents), n).value &&
                types == old(types) && Contents == old(Contents) && Repr == old(Repr)
      ensures FindTypeIndex(old(Contents), n).None? ==>
                fresh(t.Repr) && types == old(types) + [t] &&
                Contents == old(Contents) + [TypeValue(n, [])] && Repr == old(Repr) + t.Repr
    {
      var found := FindType(n);
      if found != null {
        t := found;
        index := FindTypeIndex(Contents, n).value;
        TypeAt(index);
      } else {
        t := AppendType(n);
        index := |types| - 1;
      }
    }

    /** Appends a new empty type of a name that is not present yet. */
    method AppendType(n: string) returns (t: EType)
      requires Valid() && FindTypeIndex(Contents, n).None?
      modifies this
      ensures Valid() && fresh(t.Repr) && Repr == old(Repr) + t.Repr
      ensures t.Valid() && this !in t.Repr && t.name == n
      ensures types == old(types) + [t]
      ensures Contents == old(Contents) + [TypeValue(n, [])]
    {
      t := new EType(n);
      TypesValidAppend(this, types, Contents, Repr, t);
      UniqueTypeNamesAppend(Contents, t.Value());
      types := types + [t];
      Contents := Contents + [t.Value()];
      Repr := Repr + t.Repr;
    }

    /** Whether some technique of some type has a root node with children. */
    method HasContent() returns (b: bool)
      requires Valid()
      ensures b == HasContentValue(Contents)
    {
      if |types| == 0 {
        return false;
      }
      var i := 0;
      while i < |types|
        invariant 0 <= i <= |types|
        invariant forall k, j :: 0 <= k < i && 0 <= j < |Contents[k].techniques| ==> Contents[k].techniques[j].node.children == []
      {
        TypeAt(i);
        var t := types[i];
        var j := 0;
        while j < |t.techniques|
          invariant 0 <= j <= |t.techniques|
          invariant forall m :: 0 <= m < j ==> Contents[i].techniques[m].node.children == []
        {
          t.TechniqueAt(j);
          t.techniques[j].ChildCount();
          if |t.techniques[j].node.children| > 0 {
            return true;
          }
          j := j + 1;
        }
        i := i + 1;
      }
      return false;
    }

    /**
     * Copies this extra into `clone`, or into a new extra when `clone` is
     * null: for each type, the type of the same name is found or added in
     * the target and the type is cloned into it. A new extra comes out
     * equal to this one.
     */
    method Clone(clone: Extra?) returns (r: Extra)
      requires Valid()
      requires clone != null ==> clone.Valid() && Repr !! clone.Repr
      modifies if clone != null then clone.Repr else {}
      ensures Valid() && Contents == old(Contents)
      ensures r.Valid()
      ensures clone == null ==> fresh(r.Repr) && r.Contents == Contents
      ensures clone != null ==> r == clone && old(clone.Repr) <= r.Repr && fresh(r.Repr - old(clone.Repr))
      ensures clone != null ==> r.Contents == CloneTypesInto(old(clone.Contents), Contents)
    {
      if clone == null {
        r := new Extra();
      } else {
        r := clone;
      }
      CloneTypesTo(r);
      if clone == null {
        DefaultCloneIsCopy();
      }
    }

    /** Clones each type of this extra, in order, into `r`. */
    method CloneTypesTo(r: Extra)
      requires Valid() && r.Valid() && Repr !! r.Repr
      modifies r.Repr
      ensures Valid() && Contents == old(Contents)
      ensures r.Valid() && old(r.Repr) <= r.Repr && fresh(r.Repr - old(r.Repr))
      ensures r.Contents == CloneTypesInto(old(r.Contents), Contents)
    {
      var i := 0;
      while i < |types|
        invariant 0 <= i <= |types|
        invariant r.Valid() && Repr !! r.Repr
        invariant old(r.Repr) <= r.Repr && fresh(r.Repr - old(r.Repr))
        invariant r.Contents == CloneTypesInto(old(r.Contents), Contents[..i])
      {
        TypeAt(i);
        CloneTypesIntoStep(old(r.Contents), Contents, i);
        var src := types[i];
        r.CloneTypeInto(src);
        i := i + 1;
      }
      assert Contents[..i] == Contents;
    }

    /** AddType(src.name) followed by a clone of `src` into the type it returns. */
    method CloneTypeInto(src: EType)
      requires Valid() && src.Valid() && src.Repr !! Repr
      modifies Repr
      ensures Valid() && old(Repr) <= Repr && fresh(Repr - old(Repr))
      ensures Contents == AddTypeClone(old(Contents), old(src.Value()))
    {
      var t, index := AddType(src.name);
      CloneTypeAt(src, t, index);
    }

    /** Takes the new value and footprint of the type at `index` into Contents and Repr. */
    ghost method ResyncType(index: nat)
      requires index < |types| && index < |Contents| && UniqueTypeNames(Contents)
      requires Contents[0].name == "" && types[index].name == Contents[index].name
      requires TypesValid(this, types, Contents[index := types[index].Value()], Repr + types[index].Repr)
      modifies this
      ensures Valid() && Repr == old(Repr) + types[index].Repr
      ensures types == old(types) && Contents == old(Contents)[index := types[index].Value()]
    {
      UniqueTypeNamesUpdate(Contents, index, types[index].Value());
      Repr := Repr + types[index].Repr;
      Contents := Contents[index := types[index].Value()];
    }

    /** Clones `src` into the type at `index`, whose name is that of `src`. */
    method CloneTypeAt(src: EType, t: EType, ghost index: nat)
      requires Valid() && src.Valid() && src.Repr !! Repr
      requires index < |types| && types[index] == t && t.name == src.name
      modifies this, t.Repr
      ensures Valid() && old(Repr) <= Repr && fresh(Repr - old(Repr))
      ensures Contents == old(Contents)[index := CloneTypeValue(old(src.Value()), old(Contents[index]))]
    {
      ghost var ts, vals, R := types, Contents, Repr;
      TypeAt(index);
      var _ := src.Clone(t);
      forall i | 0 <= i < |ts| && i != index
        ensures ts[i].Repr == old(ts[i].Repr) && ts[i].Valid() && ts[i].Value() == vals[i]
      {
        assert old(ts[i].Repr) !! old(ts[index].Repr);
        assert ts[i] in old(ts[i].Repr);
        assert old(ts[i].Valid());
      }
      assert TypesValid(this, ts, vals[index := t.Value()], R + t.Repr);
      ResyncType(index);
    }
  }

  /** The first child of `t` called `n` (FCDENode::FindChildNode, on values). */
  function ChildNamed(t: NodeValue, n: string): (r: Option<NodeValue>)
    ensures r.Some? ==> r.value in t.children && r.value.name == n
    ensures r.None? <==> forall i :: 0 <= i < |t.children| ==> t.children[i].name != n
  {
    FirstChildNamed(t.children, n)
  }

  function FirstChildNamed(cs: seq<NodeValue>, n: string): (r: Option<NodeValue>)
    ensures r.Some? ==> r.value in cs && r.value.name == n
    ensures r.None? <==> forall i :: 0 <= i < |cs| ==> cs[i].name != n
  {
    if cs == [] then None
    else if cs[0].name == n then Some(cs[0])
    else FirstChildNamed(cs[1..], n)
  }

  /** The first child called `n` of the first technique root that has one (FCDEType::FindRootNode). */
  function RootNodeValue(ts: seq<TechniqueValue>, n: string): (r: Option<NodeValue>)
    ensures r.Some? ==> r.value.name == n && exists i :: 0 <= i < |ts| && ChildNamed(ts[i].node, n) == r
    ensures r.None? <==> forall i :: 0 <= i < |ts| ==> ChildNamed(ts[i].node, n).None?
  {
    if ts == [] then None
    else if ChildNamed(ts[0].node, n).Some? then ChildNamed(ts[0].node, n)
    else RootNodeValue(ts[1..], n)
  }
}
