/**
 * FCDEffectTools: searching the effect parameters of the material
 * hierarchy (geometry instance, material instance, material, effect,
 * profile, technique, texture), linking animated common-profile values to
 * the geometry instance's overrides, and choosing which parameter supplies
 * an animated or default float or colour.
 *
 * A search by semantic and a search by reference differ only in which
 * string of a parameter they compare, so both are one search over a `Key`.
 * A null query string and an empty one behave alike and are both written
 * "". Parameters are objects: the searches return them by identity and the
 * link operations overwrite their values.
 */
module EffectTools {
  import opened Common

  /** FCDEffectParameter::Type, as far as the tools tell the types apart. */
  datatype ParamType = Float | Float3 | Vector | OtherType

  /** An effect parameter: its semantic and reference names, its type and its current value. */
  class EffectParameter {
    const semantic: string
    const reference: string
    const paramType: ParamType
    var value: Value

    constructor (semantic: string, reference: string, paramType: ParamType, value: Value)
      ensures this.semantic == semantic && this.reference == reference
      ensures this.paramType == paramType && this.value == value
    {
      this.semantic := semantic;
      this.reference := reference;
      this.paramType := paramType;
      this.value := value;
    }
  }

  /** Which name of a parameter a search compares with its query. */
  datatype Key = Semantic | Reference

  function KeyOf(p: EffectParameter, key: Key): string
  {
    match key
    case Semantic => p.semantic
    case Reference => p.reference
  }

  datatype Technique = Technique(params: seq<EffectParameter>)

  /** A texture of a standard profile; only its texture-coordinate set parameter is searched. */
  datatype Texture = Texture(texcoordSet: EffectParameter)

  /** What FCDEffectStandard::GetParam answers for a semantic: the parameter and whether it is a float. */
  datatype StandardParam = StandardParam(param: EffectParameter, isFloat: bool)

  /**
   * The two kinds of profile: a shader profile (FCDEffectProfileFX) with
   * its techniques, and the COMMON profile (FCDEffectStandard) with one
   * bucket of textures per texture channel and its named standard
   * parameters.
   */
  datatype ProfileKind =
    | FX(techniques: seq<Technique>)
    | Standard(textures: seq<seq<Texture>>, byName: map<string, StandardParam>)

  datatype Profile = Profile(params: seq<EffectParameter>, kind: ProfileKind)

  datatype Effect = Effect(params: seq<EffectParameter>, profiles: seq<Profile>)

  datatype Material = Material(params: seq<EffectParameter>, effect: Option<Effect>)

  datatype GeometryInstance = GeometryInstance(params: seq<EffectParameter>)

  /** A material instance reaches the parameters of the geometry instance that owns it. */
  datatype MaterialInstance = MaterialInstance(parent: GeometryInstance, material: Option<Material>)

  // ---------------------------------------------------------------------
  // First hit and all hits over a sequence
  // ---------------------------------------------------------------------

  /** The first non-null answer of `f` over `xs`, in order, or null. */
  function FirstHit<T>(xs: seq<T>, f: T -> EffectParameter?): (r: EffectParameter?)
    ensures r == null <==> forall i :: 0 <= i < |xs| ==> f(xs[i]) == null
    ensures r != null ==> exists i :: 0 <= i < |xs| && f(xs[i]) == r
  {
    if xs == [] then null
    else if f(xs[0]) != null then f(xs[0])
    else FirstHit(xs[1..], f)
  }

  /** The answers of `f` over `xs`, concatenated in order. */
  function AllHits<T>(xs: seq<T>, f: T -> seq<EffectParameter>): seq<EffectParameter>
  {
    if xs == [] then [] else f(xs[0]) + AllHits(xs[1..], f)
  }

  /** The first element of a list, or null when it is empty. */
  function Head(s: seq<EffectParameter>): (r: EffectParameter?)
    ensures r == null <==> s == []
  {
    if s == [] then null else s[0]
  }

  /** The hit at position i is the first hit when nothing before it answers. */
  lemma {:induction false} FirstHitAt<T>(xs: seq<T>, f: T -> EffectParameter?, i: nat)
    requires i < |xs| && f(xs[i]) != null
    requires forall j :: 0 <= j < i ==> f(xs[j]) == null
    ensures FirstHit(xs, f) == f(xs[i])
  {
    if i > 0 {
      FirstHitAt(xs[1..], f, i - 1);
    }
  }

  lemma {:induction false} AllHitsSnoc<T>(xs: seq<T>, x: T, f: T -> seq<EffectParameter>)
    ensures AllHits(xs + [x], f) == AllHits(xs, f) + f(x)
  {
    if xs == [] {
      assert [x][1..] == [];
    } else {
      assert (xs + [x])[1..] == xs[1..] + [x];
      AllHitsSnoc(xs[1..], x, f);
    }
  }

  /**
   * When each element's single answer is the first of its answers, the
   * first hit over the sequence is the first of all the answers.
   */
  lemma {:induction false} FirstHitIsHead<T>(xs: seq<T>, f: T -> EffectParameter?, g: T -> seq<EffectParameter>)
    requires forall i :: 0 <= i < |xs| ==> f(xs[i]) == Head(g(xs[i]))
    ensures FirstHit(xs, f) == Head(AllHits(xs, g))
  {
    if xs != [] {
      FirstHitIsHead(xs[1..], f, g);
      if g(xs[0]) == [] {
        assert AllHits(xs, g) == AllHits(xs[1..], g);
      } else {
        assert AllHits(xs, g)[0] == g(xs[0])[0];
      }
    }
  }

  /** Every answer collected over `xs` names `query` when every element's answers do. */
  lemma {:induction false} AllHitsMatch<T>(xs: seq<T>, g: T -> seq<EffectParameter>, key: Key, query: string)
    requires forall i :: 0 <= i < |xs| ==> AllNamed(g(xs[i]), key, query)
    ensures AllNamed(AllHits(xs, g), key, query)
  {
    if xs != [] {
      AllHitsMatch(xs[1..], g, key, query);
      assert forall i :: 0 <= i < |xs[1..]| ==> xs[1..][i] == xs[i + 1];
    }
  }

  // ---------------------------------------------------------------------
  // The searches, level by level
  // ---------------------------------------------------------------------

  /** A parameter answers a query when its key names the query. */
  function Match(key: Key, query: string): EffectParameter -> EffectParameter?
  {
    p => if KeyOf(p, key) == query then p else null
  }

  function Matches(key: Key, query: string): EffectParameter -> seq<EffectParameter>
  {
    p => if KeyOf(p, key) == query then [p] else []
  }

  function TechniqueHit(key: Key, query: string): Technique -> EffectParameter?
  {
    t => FirstInTechnique(Some(t), key, query)
  }

  function TechniqueHits(key: Key, query: string): Technique -> seq<EffectParameter>
  {
    t => AllInTechnique(Some(t), key, query)
  }

  function TextureHit(key: Key, query: string): Texture -> EffectParameter?
  {
    (x: Texture) => if KeyOf(x.texcoordSet, key) == query then x.texcoordSet else null
  }

  function TextureHits(key: Key, query: string): Texture -> seq<EffectParameter>
  {
    (x: Texture) => if KeyOf(x.texcoordSet, key) == query then [x.texcoordSet] else []
  }

  function BucketHit(key: Key, query: string): seq<Texture> -> EffectParameter?
  {
    b => FirstHit(b, TextureHit(key, query))
  }

  function BucketHits(key: Key, query: string): seq<Texture> -> seq<EffectParameter>
  {
    b => AllHits(b, TextureHits(key, query))
  }

  /** Profiles reached from an effect are searched with localOnly left at false. */
  function ProfileHit(key: Key, query: string): Profile -> EffectParameter?
  {
    p => FirstInProfile(Some(p), key, query, false)
  }

  function ProfileHits(key: Key, query: string): Profile -> seq<EffectParameter>
  {
    p => AllInProfile(Some(p), key, query, false)
  }

  /** FindEffectParameterBy{Semantic,Reference} on a technique. */
  function FirstInTechnique(t: Option<Technique>, key: Key, query: string): (r: EffectParameter?)
    ensures t.None? || query == "" ==> r == null
    ensures r != null ==> KeyOf(r, key) == query && r in t.value.params
  {
    if t.None? || query == "" then null
    else FirstHit(t.value.params, Match(key, query))
  }

  /**
   * FindEffectParameterBy{Semantic,Reference} on a profile: its own
   * parameters first; then the techniques of a shader profile unless
   * localOnly; the texture sets of a standard profile even when localOnly.
   */
  function FirstInProfile(p: Option<Profile>, key: Key, query: string, localOnly: bool): (r: EffectParameter?)
    ensures p.None? || query == "" ==> r == null
    ensures r != null ==> KeyOf(r, key) == query
  {
    if p.None? || query == "" then null
    else
      var local := FirstHit(p.value.params, Match(key, query));
      if local != null then local
      else match p.value.kind
        case FX(techniques) =>
          if localOnly then null else FirstHit(techniques, TechniqueHit(key, query))
        case Standard(textures, _) =>
          FirstHit(textures, BucketHit(key, query))
  }

  /** On an effect: its own parameters, then its profiles in order unless localOnly. */
  function FirstInEffect(e: Option<Effect>, key: Key, query: string, localOnly: bool): (r: EffectParameter?)
    ensures e.None? || query == "" ==> r == null
    ensures r != null ==> KeyOf(r, key) == query
  {
    if e.None? || query == "" then null
    else
      var local := FirstHit(e.value.params, Match(key, query));
      if local != null || localOnly then local
      else FirstHit(e.value.profiles, ProfileHit(key, query))
  }

  /** On a material: its own parameters, then its effect unless localOnly. */
  function FirstInMaterial(m: Option<Material>, key: Key, query: string, localOnly: bool): (r: EffectParameter?)
    ensures m.None? || query == "" ==> r == null
    ensures r != null ==> KeyOf(r, key) == query
  {
    if m.None? || query == "" then null
    else
      var local := FirstHit(m.value.params, Match(key, query));
      if local != null || localOnly then local
      else FirstInEffect(m.value.effect, key, query, false)
  }

  /** On a material instance: its geometry instance's parameters, then its material unless localOnly. */
  function FirstInMaterialInstance(mi: Option<MaterialInstance>, key: Key, query: string, localOnly: bool): (r: EffectParameter?)
    ensures mi.None? || query == "" ==> r == null
    ensures r != null ==> KeyOf(r, key) == query
  {
    if mi.None? || query == "" then null
    else
      var local := FirstHit(mi.value.parent.params, Match(key, query));
      if local != null || localOnly then local
      else FirstInMaterial(mi.value.material, key, query, false)
  }

  /** On a geometry instance: its own parameters only. */
  function FirstInGeometryInstance(g: Option<GeometryInstance>, key: Key, query: string): (r: EffectParameter?)
    ensures g.None? || query == "" ==> r == null
    ensures r != null ==> KeyOf(r, key) == query && r in g.value.params
  {
    if g.None? || query == "" then null
    else FirstHit(g.value.params, Match(key, query))
  }

  // The collecting searches: every match, in the order the single searches visit them.

  function AllInTechnique(t: Option<Technique>, key: Key, query: string): (r: seq<EffectParameter>)
    ensures t.None? || query == "" ==> r == []
  {
    if t.None? || query == "" then []
    else AllHits(t.value.params, Matches(key, query))
  }

  function AllInProfile(p: Option<Profile>, key: Key, query: string, localOnly: bool): (r: seq<EffectParameter>)
    ensures p.None? || query == "" ==> r == []
  {
    if p.None? || query == "" then []
    else
      var local := AllHits(p.value.params, Matches(key, query));
      match p.value.kind
      case FX(techniques) =>
        if localOnly then local else local + AllHits(techniques, TechniqueHits(key, query))
      case Standard(textures, _) =>
        local + AllHits(textures, BucketHits(key, query))
  }

  function AllInEffect(e: Option<Effect>, key: Key, query: string, localOnly: bool): (r: seq<EffectParameter>)
    ensures e.None? || query == "" ==> r == []
  {
    if e.None? || query == "" then []
    else
      var local := AllHits(e.value.params, Matches(key, query));
      if localOnly then local else local + AllHits(e.value.profiles, ProfileHits(key, query))
  }

  function AllInMaterial(m: Option<Material>, key: Key, query: string, localOnly: bool): (r: seq<EffectParameter>)
    ensures m.None? || query == "" ==> r == []
  {
    if m.None? || query == "" then []
    else
      var local := AllHits(m.value.params, Matches(key, query));
      if localOnly then local else local + AllInEffect(m.value.effect, key, query, false)
  }

  function AllInMaterialInstance(mi: Option<MaterialInstance>, key: Key, query: string, localOnly: bool): (r: seq<EffectParameter>)
    ensures mi.None? || query == "" ==> r == []
  {
    if mi.None? || query == "" then []
    else
      var local := AllHits(mi.value.parent.params, Matches(key, query));
      if localOnly then local else local + AllInMaterial(mi.value.material, key, query, false)
  }

  /** Every parameter of the list names the query. */
  predicate AllNamed(r: seq<EffectParameter>, key: Key, query: string)
  {
    forall k :: 0 <= k < |r| ==> KeyOf(r[k], key) == query
  }

  lemma TechniqueCollectsMatches(t: Option<Technique>, key: Key, query: string)
    ensures AllNamed(AllInTechnique(t, key, query), key, query)
  {
    if t.Some? && query != "" {
      AllHitsMatch(t.value.params, Matches(key, query), key, query);
    }
  }

  lemma ProfileCollectsMatches(p: Option<Profile>, key: Key, query: string, localOnly: bool)
    ensures AllNamed(AllInProfile(p, key, query, localOnly), key, query)
  {
    if p.Some? && query != "" {
      AllHitsMatch(p.value.params, Matches(key, query), key, query);
      match p.value.kind
      case FX(techniques) =>
        forall i | 0 <= i < |techniques| {
          TechniqueCollectsMatches(Some(techniques[i]), key, query);
        }
        AllHitsMatch(techniques, TechniqueHits(key, query), key, query);
      case Standard(textures, _) =>
        forall i | 0 <= i < |textures| {
          AllHitsMatch(textures[i], TextureHits(key, query), key, query);
        }
        AllHitsMatch(textures, BucketHits(key, query), key, query);
    }
  }

  lemma EffectCollectsMatches(e: Option<Effect>, key: Key, query: string, localOnly: bool)
    ensures AllNamed(AllInEffect(e, key, query, localOnly), key, query)
  {
    if e.Some? && query != "" {
      AllHitsMatch(e.value.params, Matches(key, query), key, query);
      forall i | 0 <= i < |e.value.profiles| {
        ProfileCollectsMatches(Some(e.value.profiles[i]), key, query, false);
      }
      AllHitsMatch(e.value.profiles, ProfileHits(key, query), key, query);
    }
  }

  lemma MaterialCollectsMatches(m: Option<Material>, key: Key, query: string, localOnly: bool)
    ensures AllNamed(AllInMaterial(m, key, query, localOnly), key, query)
  {
    if m.Some? && query != "" {
      AllHitsMatch(m.value.params, Matches(key, query), key, query);
      EffectCollectsMatches(m.value.effect, key, query, false);
    }
  }

  /**
   * Every parameter a collecting search on a material instance appends
   * names the query, whichever level of the hierarchy it came from.
   */
  lemma MaterialInstanceCollectsMatches(mi: Option<MaterialInstance>, key: Key, query: string, localOnly: bool)
    ensures AllNamed(AllInMaterialInstance(mi, key, query, localOnly), key, query)
  {
    if mi.Some? && query != "" {
      AllHitsMatch(mi.value.parent.params, Matches(key, query), key, query);
      MaterialCollectsMatches(mi.value.material, key, query, false);
    }
  }

  // ---------------------------------------------------------------------
  // Properties of the searches
  // ---------------------------------------------------------------------

  lemma LocalIsHead(ps: seq<EffectParameter>, key: Key, query: string)
    ensures FirstHit(ps, Match(key, query)) == Head(AllHits(ps, Matches(key, query)))
  {
    FirstHitIsHead(ps, Match(key, query), Matches(key, query));
  }

  lemma HeadAppend(a: seq<EffectParameter>, b: seq<EffectParameter>)
    ensures Head(a + b) == if a == [] then Head(b) else Head(a)
  {
    if a == [] {
      assert a + b == b;
    }
  }

  /** A technique search answers the first parameter the collecting search gathers. */
  lemma TechniqueFirstIsCollected(t: Option<Technique>, key: Key, query: string)
    ensures FirstInTechnique(t, key, query) == Head(AllInTechnique(t, key, query))
  {
    if t.Some? && query != "" {
      LocalIsHead(t.value.params, key, query);
    }
  }

  lemma {:induction false} ProfileFirstIsCollected(p: Option<Profile>, key: Key, query: string, localOnly: bool)
    ensures FirstInProfile(p, key, query, localOnly) == Head(AllInProfile(p, key, query, localOnly))
  {
    if p.Some? && query != "" {
      var ps := p.value.params;
      LocalIsHead(ps, key, query);
      var local := AllHits(ps, Matches(key, query));
      match p.value.kind
      case FX(techniques) =>
        forall i | 0 <= i < |techniques| {
          TechniqueFirstIsCollected(Some(techniques[i]), key, query);
        }
        FirstHitIsHead(techniques, TechniqueHit(key, query), TechniqueHits(key, query));
        HeadAppend(local, AllHits(techniques, TechniqueHits(key, query)));
      case Standard(textures, _) =>
        forall i | 0 <= i < |textures| {
          FirstHitIsHead(textures[i], TextureHit(key, query), TextureHits(key, query));
        }
        FirstHitIsHead(textures, BucketHit(key, query), BucketHits(key, query));
        HeadAppend(local, AllHits(textures, BucketHits(key, query)));
    }
  }

  lemma {:induction false} EffectFirstIsCollected(e: Option<Effect>, key: Key, query: string, localOnly: bool)
    ensures FirstInEffect(e, key, query, localOnly) == Head(AllInEffect(e, key, query, localOnly))
  {
    if e.Some? && query != "" {
      var ps := e.value.params;
      LocalIsHead(ps, key, query);
      if !localOnly {
        var profiles := e.value.profiles;
        forall i | 0 <= i < |profiles| {
          ProfileFirstIsCollected(Some(profiles[i]), key, query, false);
        }
        FirstHitIsHead(profiles, ProfileHit(key, query), ProfileHits(key, query));
        HeadAppend(AllHits(ps, Matches(key, query)), AllHits(profiles, ProfileHits(key, query)));
      }
    }
  }

  lemma {:induction false} MaterialFirstIsCollected(m: Option<Material>, key: Key, query: string, localOnly: bool)
    ensures FirstInMaterial(m, key, query, localOnly) == Head(AllInMaterial(m, key, query, localOnly))
  {
    if m.Some? && query != "" {
      LocalIsHead(m.value.params, key, query);
      if !localOnly {
        EffectFirstIsCollected(m.value.effect, key, query, false);
        HeadAppend(AllHits(m.value.params, Matches(key, query)), AllInEffect(m.value.effect, key, query, false));
      }
    }
  }

  /**
   * The single-result search on a material instance returns exactly the
   * first parameter the collecting search appends, for every container,
   * query and localOnly flag.
   */
  lemma {:induction false} MaterialInstanceFirstIsCollected(mi: Option<MaterialInstance>, key: Key, query: string, localOnly: bool)
    ensures FirstInMaterialInstance(mi, key, query, localOnly) == Head(AllInMaterialInstance(mi, key, query, localOnly))
  {
    if mi.Some? && query != "" {
      LocalIsHead(mi.value.parent.params, key, query);
      if !localOnly {
        MaterialFirstIsCollected(mi.value.material, key, query, false);
        HeadAppend(AllHits(mi.value.parent.params, Matches(key, query)), AllInMaterial(mi.value.material, key, query, false));
      }
    }
  }

  /**
   * localOnly only narrows a search: what the local search collects is a
   * prefix of what the full search collects, and a local hit is also the
   * full search's answer. A standard profile ignores the flag altogether.
   */
  lemma LocalOnlyNarrows(mi: Option<MaterialInstance>, m: Option<Material>, e: Option<Effect>, p: Option<Profile>, key: Key, query: string)
    ensures AllInMaterialInstance(mi, key, query, true) <= AllInMaterialInstance(mi, key, query, false)
    ensures AllInMaterial(m, key, query, true) <= AllInMaterial(m, key, query, false)
    ensures AllInEffect(e, key, query, true) <= AllInEffect(e, key, query, false)
    ensures AllInProfile(p, key, query, true) <= AllInProfile(p, key, query, false)
    ensures FirstInMaterialInstance(mi, key, query, true) != null ==>
      FirstInMaterialInstance(mi, key, query, false) == FirstInMaterialInstance(mi, key, query, true)
    ensures FirstInMaterial(m, key, query, true) != null ==>
      FirstInMaterial(m, key, query, false) == FirstInMaterial(m, key, query, true)
    ensures FirstInEffect(e, key, query, true) != null ==>
      FirstInEffect(e, key, query, false) == FirstInEffect(e, key, query, true)
    ensures FirstInProfile(p, key, query, true) != null ==>
      FirstInProfile(p, key, query, false) == FirstInProfile(p, key, query, true)
    ensures p.Some? && p.value.kind.Standard? ==>
      FirstInProfile(p, key, query, true) == FirstInProfile(p, key, query, false) &&
      AllInProfile(p, key, query, true) == AllInProfile(p, key, query, false)
  {
  }

  // ---------------------------------------------------------------------
  // The searches as the source runs them: loops with an early return
  // ---------------------------------------------------------------------

  /** The scan every overload makes of its own parameter list. */
  method FindLocal(ps: seq<EffectParameter>, key: Key, query: string) returns (r: EffectParameter?)
    ensures r == FirstHit(ps, Match(key, query))
  {
    var i := 0;
    while i < |ps|
      invariant 0 <= i <= |ps|
      invariant forall j :: 0 <= j < i ==> Match(key, query)(ps[j]) == null
    {
      if KeyOf(ps[i], key) == query {
        FirstHitAt(ps, Match(key, query), i);
        return ps[i];
      }
      i := i + 1;
    }
    return null;
  }

  method FindInTechnique(t: Option<Technique>, key: Key, query: string) returns (r: EffectParameter?)
    ensures r == FirstInTechnique(t, key, query)
  {
    if t.None? || query == "" {
      return null;
    }
    r := FindLocal(t.value.params, key, query);
  }

  method FindInTextures(textures: seq<seq<Texture>>, key: Key, query: string) returns (r: EffectParameter?)
    ensures r == FirstHit(textures, BucketHit(key, query))
  {
    var i := 0;
    while i < |textures|
      invariant 0 <= i <= |textures|
      invariant forall j :: 0 <= j < i ==> BucketHit(key, query)(textures[j]) == null
    {
      var bucket := textures[i];
      var t := 0;
      while t < |bucket|
        invariant 0 <= t <= |bucket|
        invariant forall j :: 0 <= j < t ==> TextureHit(key, query)(bucket[j]) == null
      {
        if KeyOf(bucket[t].texcoordSet, key) == query {
          FirstHitAt(bucket, TextureHit(key, query), t);
          FirstHitAt(textures, BucketHit(key, query), i);
          return bucket[t].texcoordSet;
        }
        t := t + 1;
      }
      i := i + 1;
    }
    return null;
  }

  method FindInProfile(p: Option<Profile>, key: Key, query: string, localOnly: bool) returns (r: EffectParameter?)
    ensures r == FirstInProfile(p, key, query, localOnly)
  {
    if p.None? || query == "" {
      return null;
    }
    r := FindLocal(p.value.params, key, query);
    if r != null {
      return;
    }
    match p.value.kind
    case FX(techniques) =>
      if !localOnly {
        var t := 0;
        while t < |techniques|
          invariant 0 <= t <= |techniques|
          invariant forall j :: 0 <= j < t ==> TechniqueHit(key, query)(techniques[j]) == null
        {
          r := FindInTechnique(Some(techniques[t]), key, query);
          if r != null {
            FirstHitAt(techniques, TechniqueHit(key, query), t);
            return;
          }
          t := t + 1;
        }
        r := null;
      }
    case Standard(textures, _) =>
      r := FindInTextures(textures, key, query);
  }

  method FindInEffect(e: Option<Effect>, key: Key, query: string, localOnly: bool) returns (r: EffectParameter?)
    ensures r == FirstInEffect(e, key, query, localOnly)
  {
    if e.None? || query == "" {
      return null;
    }
    r := FindLocal(e.value.params, key, query);
    if r != null || localOnly {
      return;
    }
    var profiles := e.value.profiles;
    var i := 0;
    while i < |profiles|
      invariant 0 <= i <= |profiles|
      invariant forall j :: 0 <= j < i ==> ProfileHit(key, query)(profiles[j]) == null
    {
      r := FindInProfile(Some(profiles[i]), key, query, false);
      if r != null {
        FirstHitAt(profiles, ProfileHit(key, query), i);
        return;
      }
      i := i + 1;
    }
    r := null;
  }

  method FindInMaterial(m: Option<Material>, key: Key, query: string, localOnly: bool) returns (r: EffectParameter?)
    ensures r == FirstInMaterial(m, key, query, localOnly)
  {
    if m.None? || query == "" {
      return null;
    }
    r := FindLocal(m.value.params, key, query);
    if r == null && !localOnly {
      r := FindInEffect(m.value.effect, key, query, false);
    }
  }

  method FindInMaterialInstance(mi: Option<MaterialInstance>, key: Key, query: string, localOnly: bool) returns (r: EffectParameter?)
    ensures r == FirstInMaterialInstance(mi, key, query, localOnly)
  {
    if mi.None? || query == "" {
      return null;
    }
    r := FindLocal(mi.value.parent.params, key, query);
    if r == null && !localOnly {
      r := FindInMaterial(mi.value.material, key, query, false);
    }
  }

  method FindInGeometryInstance(g: Option<GeometryInstance>, key: Key, query: string) returns (r: EffectParameter?)
    ensures r == FirstInGeometryInstance(g, key, query)
  {
    if g.None? || query == "" {
      return null;
    }
    r := FindLocal(g.value.params, key, query);
  }

  // ---------------------------------------------------------------------
  // The collecting searches: they append to a list the caller owns
  // ---------------------------------------------------------------------

  lemma AppendAssoc(a: seq<EffectParameter>, b: seq<EffectParameter>, c: seq<EffectParameter>)
    ensures (a + b) + c == a + (b + c)
  {
  }

  /** FCDEffectParameterList, the caller's list the collecting searches append to. */
  class ParameterList {
    var items: seq<EffectParameter>

    constructor ()
      ensures items == []
    {
      items := [];
    }

    method Append(p: EffectParameter)
      modifies `items
      ensures items == old(items) + [p]
    {
      items := items + [p];
    }
  }

  method CollectLocal(ps: seq<EffectParameter>, key: Key, query: string, list: ParameterList)
    modifies list`items
    ensures list.items == old(list.items) + AllHits(ps, Matches(key, query))
  {
    var i := 0;
    while i < |ps|
      invariant 0 <= i <= |ps|
      invariant list.items == old(list.items) + AllHits(ps[..i], Matches(key, query))
    {
      AllHitsSnoc(ps[..i], ps[i], Matches(key, query));
      assert ps[..i + 1] == ps[..i] + [ps[i]];
      AppendAssoc(old(list.items), AllHits(ps[..i], Matches(key, query)), Matches(key, query)(ps[i]));
      if KeyOf(ps[i], key) == query {
        list.Append(ps[i]);
      }
      i := i + 1;
    }
    assert ps[..i] == ps;
  }

  method CollectInTechnique(t: Option<Technique>, key: Key, query: string, list: ParameterList)
    modifies list`items
    ensures list.items == old(list.items) + AllInTechnique(t, key, query)
  {
    if t.None? || query == "" {
      return;
    }
    CollectLocal(t.value.params, key, query, list);
  }

  method CollectInBucket(bucket: seq<Texture>, key: Key, query: string, list: ParameterList)
    modifies list`items
    ensures list.items == old(list.items) + AllHits(bucket, TextureHits(key, query))
  {
    var t := 0;
    while t < |bucket|
      invariant 0 <= t <= |bucket|
      invariant list.items == old(list.items) + AllHits(bucket[..t], TextureHits(key, query))
    {
      AllHitsSnoc(bucket[..t], bucket[t], TextureHits(key, query));
      assert bucket[..t + 1] == bucket[..t] + [bucket[t]];
      AppendAssoc(old(list.items), AllHits(bucket[..t], TextureHits(key, query)), TextureHits(key, query)(bucket[t]));
      if KeyOf(bucket[t].texcoordSet, key) == query {
        list.Append(bucket[t].texcoordSet);
      }
      t := t + 1;
    }
    assert bucket[..t] == bucket;
  }

  method CollectInTextures(textures: seq<seq<Texture>>, key: Key, query: string, list: ParameterList)
    modifies list`items
    ensures list.items == old(list.items) + AllHits(textures, BucketHits(key, query))
  {
    var i := 0;
    while i < |textures|
      invariant 0 <= i <= |textures|
      invariant list.items == old(list.items) + AllHits(textures[..i], BucketHits(key, query))
    {
      AllHitsSnoc(textures[..i], textures[i], BucketHits(key, query));
      assert textures[..i + 1] == textures[..i] + [textures[i]];
      AppendAssoc(old(list.items), AllHits(textures[..i], BucketHits(key, query)), BucketHits(key, query)(textures[i]));
      CollectInBucket(textures[i], key, query, list);
      i := i + 1;
    }
    assert textures[..i] == textures;
  }

  lemma TechniquesStep(techniques: seq<Technique>, t: nat, key: Key, query: string)
    requires t < |techniques|
    ensures AllHits(techniques[..t + 1], TechniqueHits(key, query)) ==
      AllHits(techniques[..t], TechniqueHits(key, query)) + AllInTechnique(Some(techniques[t]), key, query)
  {
    AllHitsSnoc(techniques[..t], techniques[t], TechniqueHits(key, query));
    assert techniques[..t + 1] == techniques[..t] + [techniques[t]];
  }

  method CollectInTechniques(techniques: seq<Technique>, key: Key, query: string, list: ParameterList)
    modifies list`items
    ensures list.items == old(list.items) + AllHits(techniques, TechniqueHits(key, query))
  {
    var t := 0;
    while t < |techniques|
      invariant 0 <= t <= |techniques|
      invariant list.items == old(list.items) + AllHits(techniques[..t], TechniqueHits(key, query))
    {
      TechniquesStep(techniques, t, key, query);
      AppendAssoc(old(list.items), AllHits(techniques[..t], TechniqueHits(key, query)), AllInTechnique(Some(techniques[t]), key, query));
      CollectInTechnique(Some(techniques[t]), key, query, list);
      t := t + 1;
    }
    assert techniques[..t] == techniques;
  }

  method CollectInProfile(p: Option<Profile>, key: Key, query: string, list: ParameterList, localOnly: bool)
    modifies list`items
    ensures list.items == old(list.items) + AllInProfile(p, key, query, localOnly)
  {
    if p.Some? && query != "" {
      var profile := p.value;
      var local := AllHits(profile.params, Matches(key, query));
      CollectLocal(profile.params, key, query, list);
      match profile.kind
      case FX(techniques) =>
        if !localOnly {
          CollectInTechniques(techniques, key, query, list);
          AppendAssoc(old(list.items), local, AllHits(techniques, TechniqueHits(key, query)));
        }
      case Standard(textures, _) =>
        CollectInTextures(textures, key, query, list);
        AppendAssoc(old(list.items), local, AllHits(textures, BucketHits(key, query)));
    }
  }

  lemma ProfilesStep(profiles: seq<Profile>, i: nat, key: Key, query: string)
    requires i < |profiles|
    ensures AllHits(profiles[..i + 1], ProfileHits(key, query)) ==
      AllHits(profiles[..i], ProfileHits(key, query)) + AllInProfile(Some(profiles[i]), key, query, false)
  {
    AllHitsSnoc(profiles[..i], profiles[i], ProfileHits(key, query));
    assert profiles[..i + 1] == profiles[..i] + [profiles[i]];
  }

  method CollectInProfiles(profiles: seq<Profile>, key: Key, query: string, list: ParameterList)
    modifies list`items
    ensures list.items == old(list.items) + AllHits(profiles, ProfileHits(key, query))
  {
    var i := 0;
    while i < |profiles|
      invariant 0 <= i <= |profiles|
      invariant list.items == old(list.items) + AllHits(profiles[..i], ProfileHits(key, query))
    {
      ProfilesStep(profiles, i, key, query);
      AppendAssoc(old(list.items), AllHits(profiles[..i], ProfileHits(key, query)), AllInProfile(Some(profiles[i]), key, query, false));
      CollectInProfile(Some(profiles[i]), key, query, list, false);
      i := i + 1;
    }
    assert profiles[..i] == profiles;
  }

  method CollectInEffect(e: Option<Effect>, key: Key, query: string, list: ParameterList, localOnly: bool)
    modifies list`items
    ensures list.items == old(list.items) + AllInEffect(e, key, query, localOnly)
  {
    if e.Some? && query != "" {
      var effect := e.value;
      CollectLocal(effect.params, key, query, list);
      if !localOnly {
        CollectInProfiles(effect.profiles, key, query, list);
        AppendAssoc(old(list.items), AllHits(effect.params, Matches(key, query)), AllHits(effect.profiles, ProfileHits(key, query)));
      }
    }
  }

  method CollectInMaterial(m: Option<Material>, key: Key, query: string, list: ParameterList, localOnly: bool)
    modifies list`items
    ensures list.items == old(list.items) + AllInMaterial(m, key, query, localOnly)
  {
    if m.Some? && query != "" {
      var material := m.value;
      CollectLocal(material.params, key, query, list);
      if !localOnly {
        CollectInEffect(material.effect, key, query, list, false);
        AppendAssoc(old(list.items), AllHits(material.params, Matches(key, query)), AllInEffect(material.effect, key, query, false));
      }
    }
  }

  method CollectInMaterialInstance(mi: Option<MaterialInstance>, key: Key, query: string, list: ParameterList, localOnly: bool)
    modifies list`items
    ensures list.items == old(list.items) + AllInMaterialInstance(mi, key, query, localOnly)
  {
    if mi.Some? && query != "" {
      var instance := mi.value;
      CollectLocal(instance.parent.params, key, query, list);
      if !localOnly {
        CollectInMaterial(instance.material, key, query, list, false);
        AppendAssoc(old(list.items), AllHits(instance.parent.params, Matches(key, query)), AllInMaterial(instance.material, key, query, false));
      }
    }
  }

  // ---------------------------------------------------------------------
  // Which parameter supplies a value
  // ---------------------------------------------------------------------

  /** The first candidate that is present, or null. */
  function FirstPresent(candidates: seq<EffectParameter?>): (r: EffectParameter?)
    ensures r == null <==> forall i :: 0 <= i < |candidates| ==> candidates[i] == null
    ensures r != null ==> r in candidates
  {
    FirstHit(candidates, (x: EffectParameter?) => x)
  }

  /** A present candidate with nothing present before it is the first present one. */
  lemma FirstPresentAt(candidates: seq<EffectParameter?>, i: nat)
    requires i < |candidates| && candidates[i] != null
    requires forall j :: 0 <= j < i ==> candidates[j] == null
    ensures FirstPresent(candidates) == candidates[i]
  {
    FirstHitAt(candidates, (x: EffectParameter?) => x, i);
  }

  /** The first candidate that is present and of one of the wanted types, or null. */
  function FirstOfType(candidates: seq<EffectParameter?>, wanted: set<ParamType>): (r: EffectParameter?)
    ensures r == null <==> forall i :: 0 <= i < |candidates| ==>
      candidates[i] == null || candidates[i].paramType !in wanted
    ensures r != null ==> r in candidates && r.paramType in wanted
  {
    FirstHit(candidates, (x: EffectParameter?) => if x != null && x.paramType in wanted then x else null)
  }

  /** Over three candidates, the first of a wanted type is the first in the source's if-chain. */
  lemma FirstOfThree(a: EffectParameter?, b: EffectParameter?, c: EffectParameter?, wanted: set<ParamType>)
    ensures FirstOfType([a, b, c], wanted) ==
      if a != null && a.paramType in wanted then a
      else if b != null && b.paramType in wanted then b
      else if c != null && c.paramType in wanted then c
      else null
  {
    var f := (x: EffectParameter?) => if x != null && x.paramType in wanted then x else null;
    assert [a, b, c][1..] == [b, c];
    assert [b, c][1..] == [c];
    assert [c][1..] == [];
    assert FirstHit([a, b, c], f) == (if f(a) != null then f(a) else FirstHit([b, c], f));
    assert FirstHit([b, c], f) == (if f(b) != null then f(b) else FirstHit([c], f));
  }

  /**
   * The parameters a link or a default value may come from, in precedence
   * order: the material's own parameters, the effect's own parameters, and
   * the profile with its techniques or textures, all by reference.
   */
  function LinkCandidates(material: Option<Material>, effect: Option<Effect>, profile: Option<Profile>, reference: string): (r: seq<EffectParameter?>)
    ensures |r| == 3
    ensures forall i :: 0 <= i < 3 && r[i] != null ==> r[i].reference == reference
  {
    [FirstInMaterial(material, Reference, reference, true),
     FirstInEffect(effect, Reference, reference, true),
     FirstInProfile(profile, Reference, reference, false)]
  }

  /** The geometry instance parameter a link may overwrite: the first with the semantic. */
  function LinkTarget(geometry: Option<GeometryInstance>, semantic: string): (r: set<EffectParameter>)
    ensures forall p :: p in r ==> p.semantic == semantic && geometry.Some? && p in geometry.value.params
  {
    var g := FirstInGeometryInstance(geometry, Semantic, semantic);
    if g == null then {} else {g}
  }

  /** The three searches by reference that the link operations make. */
  method FindLinkCandidates(material: Option<Material>, effect: Option<Effect>, profile: Option<Profile>, reference: string)
    returns (materialParam: EffectParameter?, effectParam: EffectParameter?, profileParam: EffectParameter?)
    ensures [materialParam, effectParam, profileParam] == LinkCandidates(material, effect, profile, reference)
  {
    materialParam := FindInMaterial(material, Reference, reference, true);
    effectParam := FindInEffect(effect, Reference, reference, true);
    profileParam := FindInProfile(profile, Reference, reference, false);
  }

  /**
   * LinkAnimatedParamCommonFloat: when the common-profile parameter `param`
   * refers to a parameter by reference and the geometry instance carries a
   * float parameter with the semantic, that parameter takes the value of the
   * first float among the material, effect and profile parameters with that
   * reference. Nothing else changes.
   */
  method LinkAnimatedFloat(semantic: string, param: EffectParameter, geometry: Option<GeometryInstance>,
                           material: Option<Material>, effect: Option<Effect>, profile: Option<Profile>)
    modifies LinkTarget(geometry, semantic)`value
    ensures var g := FirstInGeometryInstance(geometry, Semantic, semantic);
      var source := FirstOfType(LinkCandidates(material, effect, profile, param.reference), {Float});
      g != null ==>
        g.value == if param.reference != "" && g.paramType == Float && source != null
                   then old(source.value) else old(g.value)
  {
    var reference := param.reference;
    if reference == "" {
      return;
    }
    var geometryParam := FindInGeometryInstance(geometry, Semantic, semantic);
    var materialParam, effectParam, profileParam := FindLinkCandidates(material, effect, profile, reference);
    ghost var source := FirstOfType([materialParam, effectParam, profileParam], {Float});
    FirstOfThree(materialParam, effectParam, profileParam, {Float});
    if geometryParam == null && materialParam == null && effectParam == null && profileParam == null {
      return;
    }
    if geometryParam != null && geometryParam.paramType == Float {
      if materialParam != null && materialParam.paramType == Float {
        geometryParam.value := materialParam.value;
      } else if effectParam != null && effectParam.paramType == Float {
        geometryParam.value := effectParam.value;
      } else if profileParam != null && profileParam.paramType == Float {
        geometryParam.value := profileParam.value;
      }
      assert source != null ==> geometryParam.value == old(source.value);
    }
  }

  /**
   * The value a vector link copies: unchanged between parameters of the
   * same type, narrowed from a colour to a 3-vector (FMVector3 of an
   * FMVector4), or widened from a 3-vector to a colour with alpha 1.
   */
  function Converted(v: Value, from: ParamType, to: ParamType, narrow: Value -> Value, widen: Value -> Value): (r: Value)
    ensures from == to ==> r == v
    ensures from == Vector && to == Float3 ==> r == narrow(v)
    ensures from == Float3 && to == Vector ==> r == widen(v)
  {
    if from == to then v else if to == Float3 then narrow(v) else widen(v)
  }

  /**
   * LinkAnimatedParamCommonVector: as the float link, for a geometry
   * instance parameter of type FLOAT3 or VECTOR, taking the first material,
   * effect or profile parameter of either type and converting its value.
   */
  method LinkAnimatedVector(semantic: string, param: EffectParameter, geometry: Option<GeometryInstance>,
                            material: Option<Material>, effect: Option<Effect>, profile: Option<Profile>,
                            narrow: Value -> Value, widen: Value -> Value)
    modifies LinkTarget(geometry, semantic)`value
    ensures var g := FirstInGeometryInstance(geometry, Semantic, semantic);
      var source := FirstOfType(LinkCandidates(material, effect, profile, param.reference), {Float3, Vector});
      g != null ==>
        g.value == if param.reference != "" && g.paramType in {Float3, Vector} && source != null
                   then Converted(old(source.value), source.paramType, g.paramType, narrow, widen)
                   else old(g.value)
  {
    var reference := param.reference;
    if reference == "" {
      return;
    }
    var geometryParam := FindInGeometryInstance(geometry, Semantic, semantic);
    var materialParam, effectParam, profileParam := FindLinkCandidates(material, effect, profile, reference);
    ghost var source := FirstOfType([materialParam, effectParam, profileParam], {Float3, Vector});
    FirstOfThree(materialParam, effectParam, profileParam, {Float3, Vector});
    if geometryParam == null && materialParam == null && effectParam == null && profileParam == null {
      return;
    }
    if geometryParam != null && geometryParam.paramType == Float3 {
      if materialParam != null && materialParam.paramType == Float3 {
        geometryParam.value := materialParam.value;
      } else if materialParam != null && materialParam.paramType == Vector {
        geometryParam.value := narrow(materialParam.value);
      } else if effectParam != null && effectParam.paramType == Float3 {
        geometryParam.value := effectParam.value;
      } else if effectParam != null && effectParam.paramType == Vector {
        geometryParam.value := narrow(effectParam.value);
      } else if profileParam != null && profileParam.paramType == Float3 {
        geometryParam.value := profileParam.value;
      } else if profileParam != null && profileParam.paramType == Vector {
        geometryParam.value := narrow(profileParam.value);
      }
      assert source != null ==> geometryParam.value == Converted(old(source.value), source.paramType, Float3, narrow, widen);
    } else if geometryParam != null && geometryParam.paramType == Vector {
      if materialParam != null && materialParam.paramType == Float3 {
        geometryParam.value := widen(materialParam.value);
      } else if materialParam != null && materialParam.paramType == Vector {
        geometryParam.value := materialParam.value;
      } else if effectParam != null && effectParam.paramType == Float3 {
        geometryParam.value := widen(effectParam.value);
      } else if effectParam != null && effectParam.paramType == Vector {
        geometryParam.value := effectParam.value;
      } else if profileParam != null && profileParam.paramType == Float3 {
        geometryParam.value := widen(profileParam.value);
      } else if profileParam != null && profileParam.paramType == Vector {
        geometryParam.value := profileParam.value;
      }
      assert source != null ==> geometryParam.value == Converted(old(source.value), source.paramType, Vector, narrow, widen);
    }
  }

  /** The first standard (COMMON) profile of an effect: FCDEffect::FindProfile(COMMON). */
  function CommonProfile(e: Effect): (r: Option<Profile>)
    ensures r.Some? ==> r.value.kind.Standard? && r.value in e.profiles
    ensures r.None? ==> forall i :: 0 <= i < |e.profiles| ==> !e.profiles[i].kind.Standard?
  {
    FirstStandard(e.profiles)
  }

  function FirstStandard(profiles: seq<Profile>): (r: Option<Profile>)
    ensures r.Some? ==> r.value.kind.Standard? && r.value in profiles
    ensures r.None? ==> forall i :: 0 <= i < |profiles| ==> !profiles[i].kind.Standard?
  {
    if profiles == [] then None
    else if profiles[0].kind.Standard? then Some(profiles[0])
    else FirstStandard(profiles[1..])
  }

  /**
   * The standard parameter a material declares for a semantic through the
   * COMMON profile of its effect (FCDEffectStandard::GetParam), when the
   * material, its effect, that profile and that semantic all exist.
   */
  function StandardFor(material: Option<Material>, semantic: string): (r: Option<StandardParam>)
    ensures r.Some? ==> material.Some? && material.value.effect.Some?
    ensures r.Some? ==> var profile := CommonProfile(material.value.effect.value);
      profile.Some? && semantic in profile.value.kind.byName && r.value == profile.value.kind.byName[semantic]
  {
    if material.None? || material.value.effect.None? then None
    else match CommonProfile(material.value.effect.value)
      case None => None
      case Some(profile) =>
        if semantic in profile.kind.byName then Some(profile.kind.byName[semantic]) else None
  }

  /** The search results an animated value is chosen from: the geometry instance's, then the link candidates. */
  function AnimatedCandidates(geometryInstance: Option<GeometryInstance>, material: Option<Material>, semantic: string): (r: seq<EffectParameter?>)
    requires StandardFor(material, semantic).Some?
    ensures |r| == 4
  {
    var effect := material.value.effect.value;
    [FirstInGeometryInstance(geometryInstance, Semantic, semantic)] +
      LinkCandidates(material, Some(effect), CommonProfile(effect), StandardFor(material, semantic).value.param.reference)
  }

  /** The first present candidate decides a float: it is taken when it is a float, else nothing is. */
  function FloatFrom(candidates: seq<EffectParameter?>, fallback: EffectParameter): (r: EffectParameter?)
    ensures r != null ==> r == fallback || (r in candidates && r.paramType == Float)
  {
    var first := FirstPresent(candidates);
    if first == null then fallback else if first.paramType == Float then first else null
  }

  /** The first present candidate decides a colour and whether it is a 3-vector. */
  function ColorFrom(candidates: seq<EffectParameter?>, fallback: EffectParameter, isFloat3: bool): (r: (EffectParameter?, bool))
    ensures r.0 == null ==> r.1 == isFloat3
    ensures r.0 != null && r.0 != fallback ==> r.0 in candidates && r.0.paramType in {Float3, Vector}
    ensures r.0 != null && r.0 != fallback ==> r.1 == (r.0.paramType == Float3)
  {
    var first := FirstPresent(candidates);
    if first == null then (fallback, true)
    else if first.paramType == Float3 then (first, true)
    else if first.paramType == Vector then (first, false)
    else (null, isFloat3)
  }

  /**
   * GetAnimatedFloat: the parameter whose value animates a standard float.
   * Null when the material, its effect, the COMMON profile or the standard
   * parameter is missing; a standard parameter without a reference is its
   * own value; otherwise the first of the geometry instance (by semantic),
   * material, effect and profile (by reference) that has the parameter
   * decides, and it must be a float.
   */
  function AnimatedFloat(geometryInstance: Option<GeometryInstance>, material: Option<Material>, semantic: string): (r: EffectParameter?)
    ensures StandardFor(material, semantic).None? ==> r == null
    ensures r != null ==> StandardFor(material, semantic).Some? && StandardFor(material, semantic).value.isFloat
    ensures r != null ==> r == StandardFor(material, semantic).value.param || r.paramType == Float
  {
    match StandardFor(material, semantic)
    case None => null
    case Some(standard) =>
      if standard.param.reference == "" then (if standard.isFloat then standard.param else null)
      else if !standard.isFloat then null
      else FloatFrom(AnimatedCandidates(geometryInstance, material, semantic), standard.param)
  }

  /**
   * GetAnimatedColor: as AnimatedFloat for a standard colour, also telling
   * whether the chosen parameter is a 3-vector; the flag is left as the
   * caller passed it when nothing is chosen and when a standard colour
   * without a reference is its own value.
   */
  function AnimatedColor(geometryInstance: Option<GeometryInstance>, material: Option<Material>, semantic: string, isFloat3: bool): (r: (EffectParameter?, bool))
    ensures StandardFor(material, semantic).None? ==> r == (null, isFloat3)
    ensures r.0 == null ==> r.1 == isFloat3
    ensures r.0 != null ==> StandardFor(material, semantic).Some? && !StandardFor(material, semantic).value.isFloat
    ensures r.0 != null && r.0 != StandardFor(material, semantic).value.param ==>
      r.0.paramType in {Float3, Vector} && r.1 == (r.0.paramType == Float3)
  {
    match StandardFor(material, semantic)
    case None => (null, isFloat3)
    case Some(standard) =>
      if standard.param.reference == "" then (if standard.isFloat then (null, isFloat3) else (standard.param, isFloat3))
      else if standard.isFloat then (null, isFloat3)
      else ColorFrom(AnimatedCandidates(geometryInstance, material, semantic), standard.param, isFloat3)
  }

  /**
   * GetDefaultFloat: as AnimatedFloat without consulting any geometry
   * instance. The source dereferences the effect and its COMMON profile
   * unchecked, so both must exist.
   */
  function DefaultFloat(material: Material, semantic: string): (r: EffectParameter?)
    requires material.effect.Some? && CommonProfile(material.effect.value).Some?
    ensures semantic !in CommonProfile(material.effect.value).value.kind.byName ==> r == null
    ensures r != null ==> r.paramType == Float || r == CommonProfile(material.effect.value).value.kind.byName[semantic].param
  {
    var effect := material.effect.value;
    var profile := CommonProfile(effect).value;
    if semantic !in profile.kind.byName then null
    else
      var standard := profile.kind.byName[semantic];
      var reference := standard.param.reference;
      if reference == "" then (if standard.isFloat then standard.param else null)
      else if !standard.isFloat then null
      else FloatFrom(LinkCandidates(Some(material), Some(effect), Some(profile), reference), standard.param)
  }

  /** GetDefaultColor: as AnimatedColor without consulting any geometry instance. */
  function DefaultColor(material: Material, semantic: string, isFloat3: bool): (r: (EffectParameter?, bool))
    requires material.effect.Some? && CommonProfile(material.effect.value).Some?
    ensures semantic !in CommonProfile(material.effect.value).value.kind.byName ==> r == (null, isFloat3)
    ensures r.0 == null ==> r.1 == isFloat3
  {
    var effect := material.effect.value;
    var profile := CommonProfile(effect).value;
    if semantic !in profile.kind.byName then (null, isFloat3)
    else
      var standard := profile.kind.byName[semantic];
      var reference := standard.param.reference;
      if reference == "" then (if standard.isFloat then (null, isFloat3) else (standard.param, isFloat3))
      else if standard.isFloat then (null, isFloat3)
      else ColorFrom(LinkCandidates(Some(material), Some(effect), Some(profile), reference), standard.param, isFloat3)
  }

  /**
   * The default value of a material is the animated value with no
   * geometry instance: the geometry instance's parameters only ever add
   * animation overrides in front of the same precedence chain.
   */
  lemma DefaultIsAnimatedWithoutGeometry(material: Material, semantic: string, isFloat3: bool)
    requires material.effect.Some? && CommonProfile(material.effect.value).Some?
    ensures DefaultFloat(material, semantic) == AnimatedFloat(None, Some(material), semantic)
    ensures DefaultColor(material, semantic, isFloat3) == AnimatedColor(None, Some(material), semantic, isFloat3)
  {
    var effect := material.effect.value;
    var profile := CommonProfile(effect).value;
    if semantic in profile.kind.byName {
      var standard := profile.kind.byName[semantic];
      var rest := LinkCandidates(Some(material), Some(effect), Some(profile), standard.param.reference);
      assert ([null] + rest)[1..] == rest;
      assert FirstPresent([null] + rest) == FirstPresent(rest);
    }
  }

  /**
   * The precedence chain of GetAnimatedFloat and GetAnimatedColor: for a
   * standard parameter with a reference, the first search (geometry
   * instance, material, effect, profile) that finds a parameter decides,
   * whatever the later ones find; when none finds one the standard
   * parameter itself is the answer.
   */
  lemma AnimatedPrecedence(geometryInstance: Option<GeometryInstance>, material: Option<Material>, semantic: string, isFloat3: bool, i: nat)
    requires StandardFor(material, semantic).Some?
    requires StandardFor(material, semantic).value.param.reference != ""
    requires i <= 4
    requires forall j :: 0 <= j < i ==> AnimatedCandidates(geometryInstance, material, semantic)[j] == null
    requires i < 4 ==> AnimatedCandidates(geometryInstance, material, semantic)[i] != null
    ensures var standard := StandardFor(material, semantic).value;
      var found := if i < 4 then AnimatedCandidates(geometryInstance, material, semantic)[i] else null;
      AnimatedFloat(geometryInstance, material, semantic) ==
        (if !standard.isFloat then null
         else if found == null then standard.param
         else if found.paramType == Float then found else null)
    ensures var standard := StandardFor(material, semantic).value;
      var found := if i < 4 then AnimatedCandidates(geometryInstance, material, semantic)[i] else null;
      AnimatedColor(geometryInstance, material, semantic, isFloat3) ==
        (if standard.isFloat then (null, isFloat3)
         else if found == null then (standard.param, true)
         else if found.paramType == Float3 then (found, true)
         else if found.paramType == Vector then (found, false)
         else (null, isFloat3))
  {
    var candidates := AnimatedCandidates(geometryInstance, material, semantic);
    if i < 4 {
      FirstPresentAt(candidates, i);
    }
  }
}
