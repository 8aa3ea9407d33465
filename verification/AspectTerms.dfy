/** Terms and their normal form (src/aspect.rs). */
module AspectTerms {
  import opened Numbers
  import opened Ordering
  import opened ChannelMasks
  import opened AspectRegions

  datatype ExplanationRef = Definition(id: nat) | Proposal(id: nat) | Comparison(id: nat)

  datatype Aspect =
    | Empty
    | All
    | Time(span: FrameSpan)
    | Band(band: BandSpan)
    | Channels(mask: ChannelMask)
    | Family(source: U64, recipe: U64, family: nat)
    | Object(object: nat)
    | Union(children: seq<Aspect>)
    | Intersect(parts: seq<Aspect>)
    | Complement(child: Aspect)
    | ExplainedBy(explanation: ExplanationRef)
    | ResidualOf(residual: ExplanationRef)
  {
    predicate IsLeaf() {
      !Empty? && !All? && !Union? && !Intersect? && !Complement?
    }
  }

  // ----- the derived order: variant first, then fields

  function Rank(t: Aspect): int {
    match t
    case Empty => 0
    case All => 1
    case Time(_) => 2
    case Band(_) => 3
    case Channels(_) => 4
    case Family(_, _, _) => 5
    case Object(_) => 6
    case Union(_) => 7
    case Intersect(_) => 8
    case Complement(_) => 9
    case ExplainedBy(_) => 10
    case ResidualOf(_) => 11
  }

  function RefKey(r: ExplanationRef): (real, real, real) {
    match r
    case Definition(id) => (0.0, id as real, 0.0)
    case Proposal(id) => (1.0, id as real, 0.0)
    case Comparison(id) => (2.0, id as real, 0.0)
  }

  /** The fields of a leaf, in declaration order. */
  function LeafKey(t: Aspect): (real, real, real) {
    match t
    case Time(span) => (span.start as real, span.end as real, 0.0)
    case Band(band) => (band.minHz, band.maxHz, 0.0)
    case Channels(mask) => (mask as int as real, 0.0, 0.0)
    case Family(source, recipe, id) => (source as real, recipe as real, id as real)
    case Object(id) => (id as real, 0.0, 0.0)
    case ExplainedBy(r) => RefKey(r)
    case ResidualOf(r) => RefKey(r)
    case _ => (0.0, 0.0, 0.0)
  }

  predicate KeyLte(a: (real, real, real), b: (real, real, real)) {
    if a.0 != b.0 then a.0 < b.0 else if a.1 != b.1 then a.1 < b.1 else a.2 <= b.2
  }

  predicate TermLte(a: Aspect, b: Aspect)
    decreases a, 1
  {
    if Rank(a) != Rank(b) then Rank(a) < Rank(b)
    else
      match a
      case Union(x) => ListLte(x, b.children)
      case Intersect(x) => ListLte(x, b.parts)
      case Complement(x) => TermLte(x, b.child)
      case _ => KeyLte(LeafKey(a), LeafKey(b))
  }

  predicate ListLte(a: seq<Aspect>, b: seq<Aspect>)
    decreases a, 0
  {
    if a == [] then true
    else if b == [] then false
    else if a[0] == b[0] then ListLte(a[1..], b[1..])
    else TermLte(a[0], b[0])
  }

  /** One term of every variant, in the order in which the variants are declared. */
  const VARIANTS: seq<Aspect> := [
    Empty, All, Time(FrameSpan(0, 1)), Band(BandSpan(0.0, 1.0)), Channels(1), Family(0, 0, 0), Object(0),
    Union([]), Intersect([]), Complement(Empty), ExplainedBy(Definition(0)), ResidualOf(Definition(0))]

  predicate SameVariant(a: Aspect, b: Aspect) {
    || (a.Empty? && b.Empty?) || (a.All? && b.All?) || (a.Time? && b.Time?) || (a.Band? && b.Band?)
    || (a.Channels? && b.Channels?) || (a.Family? && b.Family?) || (a.Object? && b.Object?)
    || (a.Union? && b.Union?) || (a.Intersect? && b.Intersect?) || (a.Complement? && b.Complement?)
    || (a.ExplainedBy? && b.ExplainedBy?) || (a.ResidualOf? && b.ResidualOf?)
  }

  /** A term of a variant declared earlier stands before any term of a later one. */
  lemma VariantsInOrder(a: Aspect, b: Aspect, i: nat, j: nat)
    requires i < j < |VARIANTS| && SameVariant(a, VARIANTS[i]) && SameVariant(b, VARIANTS[j])
    ensures TermLte(a, b) && !TermLte(b, a)
  {
    VariantRank(a, i);
    VariantRank(b, j);
  }

  lemma VariantRank(a: Aspect, i: nat)
    requires i < |VARIANTS| && SameVariant(a, VARIANTS[i])
    ensures Rank(a) == i
  {
    hide TermLte;
  }

  /** References by kind, in the order definition, proposal, comparison, and then by identity. */
  predicate RefInOrder(a: ExplanationRef, b: ExplanationRef) {
    || (a.Definition? && !b.Definition?) || (a.Proposal? && b.Comparison?)
    || (a.id <= b.id && ((a.Definition? && b.Definition?) || (a.Proposal? && b.Proposal?)
                         || (a.Comparison? && b.Comparison?)))
  }

  /** Leaves of one variant stand in the order of their fields. */
  lemma LeavesInOrder(a: Aspect, b: Aspect)
    requires a.IsLeaf() && SameVariant(a, b)
    ensures TermLte(a, b) <==>
      match (a, b)
      case (Time(x), Time(y)) => x.start < y.start || (x.start == y.start && x.end <= y.end)
      case (Band(x), Band(y)) => x.minHz < y.minHz || (x.minHz == y.minHz && x.maxHz <= y.maxHz)
      case (Channels(x), Channels(y)) => x as int <= y as int
      case (Family(s, r, f), Family(t, q, g)) => s < t || (s == t && (r < q || (r == q && f <= g)))
      case (Object(x), Object(y)) => x <= y
      case (ExplainedBy(x), ExplainedBy(y)) => RefInOrder(x, y)
      case (ResidualOf(x), ResidualOf(y)) => RefInOrder(x, y)
      case _ => false
  {}

  /** Lists stand in the order of the first operand in which they differ; a list stands before its extensions. */
  lemma {:induction false} ListsInOrder(a: seq<Aspect>, b: seq<Aspect>, i: nat)
    requires i <= |a| && i <= |b| && a[..i] == b[..i]
    ensures i == |a| ==> ListLte(a, b)
    ensures i == |b| < |a| ==> !ListLte(a, b)
    ensures i < |a| && i < |b| && a[i] != b[i] ==> (ListLte(a, b) <==> TermLte(a[i], b[i]))
    decreases i
  {
    if i > 0 {
      assert a[0] == a[..i][0] && b[0] == b[..i][0];
      assert a[1..][..i - 1] == a[..i][1..] && b[1..][..i - 1] == b[..i][1..];
      ListsInOrder(a[1..], b[1..], i - 1);
    }
  }

  lemma LeafKeyUnique(a: Aspect, b: Aspect)
    requires Rank(a) == Rank(b) && !a.Union? && !a.Intersect? && !a.Complement?
    requires LeafKey(a) == LeafKey(b)
    ensures a == b
  {
    if a.Channels? { MaskValueUnique(a.mask, b.mask); }
  }

  lemma {:induction false} TermTotal(a: Aspect, b: Aspect)
    ensures TermLte(a, b) || TermLte(b, a)
    ensures TermLte(a, b) && TermLte(b, a) ==> a == b
    decreases a, 1
  {
    if Rank(a) == Rank(b) {
      match a
      case Union(x) => ListTotal(x, b.children);
      case Intersect(x) => ListTotal(x, b.parts);
      case Complement(x) => TermTotal(x, b.child);
      case _ => if LeafKey(a) == LeafKey(b) { LeafKeyUnique(a, b); }
    }
  }

  lemma {:induction false} ListTotal(a: seq<Aspect>, b: seq<Aspect>)
    ensures ListLte(a, b) || ListLte(b, a)
    ensures ListLte(a, b) && ListLte(b, a) ==> a == b
    decreases a, 0
  {
    if a != [] && b != [] {
      if a[0] == b[0] {
        ListTotal(a[1..], b[1..]);
        assert a == [a[0]] + a[1..] && b == [b[0]] + b[1..];
      } else {
        TermTotal(a[0], b[0]);
      }
    }
  }

  lemma {:induction false} TermTransitive(a: Aspect, b: Aspect, c: Aspect)
    requires TermLte(a, b) && TermLte(b, c)
    ensures TermLte(a, c)
    decreases a, 1
  {
    if Rank(a) == Rank(b) == Rank(c) {
      match a
      case Union(x) => ListTransitive(x, b.children, c.children);
      case Intersect(x) => ListTransitive(x, b.parts, c.parts);
      case Complement(x) => TermTransitive(x, b.child, c.child);
      case _ =>
    }
  }

  lemma {:induction false} ListTransitive(a: seq<Aspect>, b: seq<Aspect>, c: seq<Aspect>)
    requires ListLte(a, b) && ListLte(b, c)
    ensures ListLte(a, c)
    decreases a, 0
  {
    if a != [] {
      if a[0] == b[0] == c[0] {
        ListTransitive(a[1..], b[1..], c[1..]);
      } else if a[0] != b[0] && b[0] != c[0] {
        TermTransitive(a[0], b[0], c[0]);
        if a[0] == c[0] { TermTotal(a[0], b[0]); }
      }
    }
  }

  lemma TermOrder()
    ensures TotalOrder(TermLte)
  {
    forall x: Aspect, y: Aspect
      ensures TermLte(x, y) || TermLte(y, x)
      ensures TermLte(x, y) && TermLte(y, x) ==> x == y
    {
      TermTotal(x, y);
    }
    forall x: Aspect, y: Aspect, z: Aspect | TermLte(x, y) && TermLte(y, z) ensures TermLte(x, z) {
      TermTransitive(x, y, z);
    }
  }

  // ----- normalization

  ghost function SortedTerms(terms: seq<Aspect>): (r: seq<Aspect>)
    ensures StrictlySorted(TermLte, r)
    ensures forall t :: t in r <==> t in terms
  {
    TermOrder();
    Ascending(TermLte, Elements(terms))
  }

  lemma SortedTermsIdentity(terms: seq<Aspect>)
    requires StrictlySorted(TermLte, terms)
    ensures SortedTerms(terms) == terms
  {
    TermOrder();
    AscendingOfSorted(TermLte, terms);
  }

  /** The operands of a union (meet) of normalized children: units dropped, nested unions (meets) spliced in. */
  function FlatUnion(children: seq<Aspect>): seq<Aspect> {
    if children == [] then []
    else
      var front, last := FlatUnion(children[..|children| - 1]), children[|children| - 1];
      if last.Empty? then front else if last.Union? then front + last.children else front + [last]
  }

  function FlatIntersect(children: seq<Aspect>): seq<Aspect> {
    if children == [] then []
    else
      var front, last := FlatIntersect(children[..|children| - 1]), children[|children| - 1];
      if last.All? then front else if last.Intersect? then front + last.parts else front + [last]
  }

  /** A meet one of whose parts is itself an operand of the union adds nothing to it. */
  predicate AbsorbedInUnion(candidate: Aspect, atoms: seq<Aspect>) {
    candidate.Intersect? && exists part :: part in candidate.parts && part in atoms
  }

  predicate AbsorbedInIntersect(candidate: Aspect, atoms: seq<Aspect>) {
    candidate.Union? && exists part :: part in candidate.children && part in atoms
  }

  function KeptInUnion(children: seq<Aspect>, atoms: seq<Aspect>): seq<Aspect> {
    if children == [] then []
    else
      var front, last := KeptInUnion(children[..|children| - 1], atoms), children[|children| - 1];
      if AbsorbedInUnion(last, atoms) then front else front + [last]
  }

  function KeptInIntersect(children: seq<Aspect>, atoms: seq<Aspect>): seq<Aspect> {
    if children == [] then []
    else
      var front, last := KeptInIntersect(children[..|children| - 1], atoms), children[|children| - 1];
      if AbsorbedInIntersect(last, atoms) then front else front + [last]
  }

  ghost function UnionOf(children: seq<Aspect>): Aspect {
    if All in children then All
    else
      var flat := SortedTerms(FlatUnion(children));
      var kept := KeptInUnion(flat, flat);
      if |kept| == 0 then Empty else if |kept| == 1 then kept[0] else Union(kept)
  }

  ghost function IntersectOf(children: seq<Aspect>): Aspect {
    if Empty in children then Empty
    else
      var flat := SortedTerms(FlatIntersect(children));
      var kept := KeptInIntersect(flat, flat);
      if |kept| == 0 then All else if |kept| == 1 then kept[0] else Intersect(kept)
  }

  function ComplementOf(child: Aspect): Aspect {
    match child
    case Empty => All
    case All => Empty
    case Complement(grandchild) => grandchild
    case _ => Complement(child)
  }

  ghost function Normalize(t: Aspect): Aspect
    decreases t, 1
  {
    match t
    case Union(children) => UnionOf(NormalizeEach(children))
    case Intersect(parts) => IntersectOf(NormalizeEach(parts))
    case Complement(child) => ComplementOf(Normalize(child))
    case _ => t
  }

  ghost function NormalizeEach(terms: seq<Aspect>): (r: seq<Aspect>)
    ensures |r| == |terms|
    decreases terms, 0
  {
    if terms == [] then [] else [Normalize(terms[0])] + NormalizeEach(terms[1..])
  }

  /** The in-place absorption of the program: retain what no atom absorbs. */
  method AbsorbIntersections(children: seq<Aspect>) returns (kept: seq<Aspect>)
    ensures kept == KeptInUnion(children, children)
  {
    var atoms := children;
    kept := [];
    for i := 0 to |children|
      invariant kept == KeptInUnion(children[..i], atoms)
    {
      assert children[..i + 1][..i] == children[..i];
      if !AbsorbedInUnion(children[i], atoms) { kept := kept + [children[i]]; }
    }
    assert children[..|children|] == children;
  }

  method AbsorbUnions(children: seq<Aspect>) returns (kept: seq<Aspect>)
    ensures kept == KeptInIntersect(children, children)
  {
    var atoms := children;
    kept := [];
    for i := 0 to |children|
      invariant kept == KeptInIntersect(children[..i], atoms)
    {
      assert children[..i + 1][..i] == children[..i];
      if !AbsorbedInIntersect(children[i], atoms) { kept := kept + [children[i]]; }
    }
    assert children[..|children|] == children;
  }

  lemma {:induction false} NormalizeEachAt(terms: seq<Aspect>, i: nat)
    requires i < |terms|
    ensures NormalizeEach(terms)[i] == Normalize(terms[i])
  {
    if i > 0 { NormalizeEachAt(terms[1..], i - 1); }
  }

  lemma {:induction false} FlatUnionMembers(children: seq<Aspect>)
    ensures forall t :: t in FlatUnion(children) <==>
      exists c :: c in children && ((c.Union? && t in c.children) || (!c.Union? && !c.Empty? && t == c))
  {
    if children != [] {
      var front, last := children[..|children| - 1], children[|children| - 1];
      FlatUnionMembers(front);
      assert children == front + [last];
    }
  }

  lemma {:induction false} FlatIntersectMembers(children: seq<Aspect>)
    ensures forall t :: t in FlatIntersect(children) <==>
      exists c :: c in children && ((c.Intersect? && t in c.parts) || (!c.Intersect? && !c.All? && t == c))
  {
    if children != [] {
      var front, last := children[..|children| - 1], children[|children| - 1];
      FlatIntersectMembers(front);
      assert children == front + [last];
    }
  }

  lemma {:induction false} KeptInUnionMembers(children: seq<Aspect>, atoms: seq<Aspect>)
    ensures forall t :: t in KeptInUnion(children, atoms) <==> t in children && !AbsorbedInUnion(t, atoms)
    ensures StrictlySorted(TermLte, children) ==> StrictlySorted(TermLte, KeptInUnion(children, atoms))
  {
    hide AbsorbedInUnion, TermLte;
    if children != [] {
      var front, last := children[..|children| - 1], children[|children| - 1];
      KeptInUnionMembers(front, atoms);
      assert children == front + [last];
      if StrictlySorted(TermLte, children) { SortedPush(children, KeptInUnion(front, atoms)); }
    }
  }

  lemma {:induction false} KeptInIntersectMembers(children: seq<Aspect>, atoms: seq<Aspect>)
    ensures forall t :: t in KeptInIntersect(children, atoms) <==> t in children && !AbsorbedInIntersect(t, atoms)
    ensures StrictlySorted(TermLte, children) ==> StrictlySorted(TermLte, KeptInIntersect(children, atoms))
  {
    hide AbsorbedInIntersect, TermLte;
    if children != [] {
      var front, last := children[..|children| - 1], children[|children| - 1];
      KeptInIntersectMembers(front, atoms);
      assert children == front + [last];
      if StrictlySorted(TermLte, children) { SortedPush(children, KeptInIntersect(front, atoms)); }
    }
  }

  lemma SortedPush(children: seq<Aspect>, kept: seq<Aspect>)
    requires children != [] && StrictlySorted(TermLte, children)
    requires forall t :: t in kept ==> t in children[..|children| - 1]
    ensures StrictlySorted(TermLte, children[..|children| - 1])
    ensures StrictlySorted(TermLte, kept) ==> StrictlySorted(TermLte, kept + [children[|children| - 1]])
  {
    hide TermLte;
    var last := children[|children| - 1];
    forall i | 0 <= i < |kept| ensures TermLte(kept[i], last) && kept[i] != last {
      assert kept[i] in kept;
      assert kept[i] in children[..|children| - 1];
      var j :| 0 <= j < |children| - 1 && children[j] == kept[i];
    }
  }

  // ----- the normal form

  /** What may stand below the root of a normal term. */
  predicate Proper(t: Aspect)
    decreases t, 1
  {
    match t
    case Empty => false
    case All => false
    case Union(children) => ProperUnion(children)
    case Intersect(parts) => ProperIntersect(parts)
    case Complement(child) => Proper(child) && !child.Complement?
    case _ => true
  }

  /** At least two operands, ascending, none a union itself, none absorbed by another. */
  predicate ProperUnion(children: seq<Aspect>)
    decreases children, 0
  {
    && |children| >= 2
    && StrictlySorted(TermLte, children)
    && (forall c :: c in children ==> Proper(c) && !c.Union? && !AbsorbedInUnion(c, children))
  }

  predicate ProperIntersect(parts: seq<Aspect>)
    decreases parts, 0
  {
    && |parts| >= 2
    && StrictlySorted(TermLte, parts)
    && (forall c :: c in parts ==> Proper(c) && !c.Intersect? && !AbsorbedInIntersect(c, parts))
  }

  predicate Normal(t: Aspect) {
    t.Empty? || t.All? || Proper(t)
  }

  /** What no operand of a proper union, meet or complement is. */
  lemma ProperShape(t: Aspect)
    requires Proper(t)
    ensures !t.Empty? && !t.All?
    ensures t.Union? ==> |t.children| >= 2 && forall c :: c in t.children ==>
      && Proper(c) && !c.Union?
      && (c.Intersect? ==> forall part :: part in c.parts ==> part !in t.children)
    ensures t.Intersect? ==> |t.parts| >= 2 && forall c :: c in t.parts ==>
      && Proper(c) && !c.Intersect?
      && (c.Union? ==> forall child :: child in c.children ==> child !in t.parts)
    ensures t.Complement? ==> Proper(t.child) && !t.child.Complement?
  {
    if t.Union? { ProperUnionChildren(t); }
    if t.Intersect? { ProperIntersectParts(t); }
    hide Proper;
  }

  lemma ProperUnionChildren(t: Aspect)
    requires t.Union? && Proper(t)
    ensures |t.children| >= 2 && StrictlySorted(TermLte, t.children)
    ensures forall c :: c in t.children ==> Proper(c) && !c.Union? && !AbsorbedInUnion(c, t.children)
  {
    assert ProperUnion(t.children);
  }

  lemma ProperIntersectParts(t: Aspect)
    requires t.Intersect? && Proper(t)
    ensures |t.parts| >= 2 && StrictlySorted(TermLte, t.parts)
    ensures forall c :: c in t.parts ==> Proper(c) && !c.Intersect? && !AbsorbedInIntersect(c, t.parts)
  {
    assert ProperIntersect(t.parts);
  }

  /** Splicing normal children leaves operands that are proper and not of the same kind. */
  lemma {:induction false} UnionOperands(children: seq<Aspect>)
    requires forall c :: c in children ==> Normal(c)
    requires All !in children
    ensures forall t :: t in FlatUnion(children) ==> Proper(t) && !t.Union?
  {
    if children != [] {
      var front, last := children[..|children| - 1], children[|children| - 1];
      UnionOperands(front);
      assert last in children;
      assert Normal(last);
      if last.Union? { ProperUnionChildren(last); }
    }
  }

  lemma {:induction false} IntersectOperands(children: seq<Aspect>)
    requires forall c :: c in children ==> Normal(c)
    requires Empty !in children
    ensures forall t :: t in FlatIntersect(children) ==> Proper(t) && !t.Intersect?
  {
    if children != [] {
      var front, last := children[..|children| - 1], children[|children| - 1];
      IntersectOperands(front);
      assert last in children;
      assert Normal(last);
      if last.Intersect? { ProperIntersectParts(last); }
    }
  }

  lemma UnionOfNormal(children: seq<Aspect>)
    requires forall c :: c in children ==> Normal(c)
    ensures Normal(UnionOf(children))
  {
    hide TermLte;
    if All !in children {
      var flat := SortedTerms(FlatUnion(children));
      var kept := KeptInUnion(flat, flat);
      UnionOperands(children);
      KeptInUnionMembers(flat, flat);
      forall t | t in kept ensures Proper(t) && !t.Union? && !AbsorbedInUnion(t, kept) {
        assert t in flat && !AbsorbedInUnion(t, flat);
      }
      if |kept| == 1 { assert kept[0] in kept; }
      if |kept| >= 2 { assert ProperUnion(kept) by { hide Proper; } }
    }
  }

  lemma IntersectOfNormal(children: seq<Aspect>)
    requires forall c :: c in children ==> Normal(c)
    ensures Normal(IntersectOf(children))
  {
    hide TermLte;
    if Empty !in children {
      var flat := SortedTerms(FlatIntersect(children));
      var kept := KeptInIntersect(flat, flat);
      IntersectOperands(children);
      KeptInIntersectMembers(flat, flat);
      forall t | t in kept ensures Proper(t) && !t.Intersect? && !AbsorbedInIntersect(t, kept) {
        assert t in flat && !AbsorbedInIntersect(t, flat);
      }
      if |kept| == 1 { assert kept[0] in kept; }
      if |kept| >= 2 { assert ProperIntersect(kept) by { hide Proper; } }
    }
  }

  /** The result has no unit below the root, no nested same-kind operand, no double complement, nothing to absorb. */
  lemma {:induction false} NormalizeIsNormal(t: Aspect)
    ensures Normal(Normalize(t))
    decreases t, 1
  {
    match t
    case Union(children) =>
      NormalizeEachIsNormal(children);
      UnionOfNormal(NormalizeEach(children));
    case Intersect(parts) =>
      NormalizeEachIsNormal(parts);
      IntersectOfNormal(NormalizeEach(parts));
    case Complement(child) => NormalizeIsNormal(child);
    case _ =>
  }

  lemma {:induction false} NormalizeEachIsNormal(terms: seq<Aspect>)
    ensures forall c :: c in NormalizeEach(terms) ==> Normal(c)
    decreases terms, 0
  {
    if terms != [] {
      NormalizeIsNormal(terms[0]);
      NormalizeEachIsNormal(terms[1..]);
    }
  }

  lemma {:induction false} FlatUnionIdentity(children: seq<Aspect>)
    requires forall c :: c in children ==> !c.Union? && !c.Empty?
    ensures FlatUnion(children) == children
  {
    if children != [] {
      FlatUnionIdentity(children[..|children| - 1]);
      assert children[|children| - 1] in children;
    }
  }

  lemma {:induction false} FlatIntersectIdentity(children: seq<Aspect>)
    requires forall c :: c in children ==> !c.Intersect? && !c.All?
    ensures FlatIntersect(children) == children
  {
    if children != [] {
      FlatIntersectIdentity(children[..|children| - 1]);
      assert children[|children| - 1] in children;
    }
  }

  lemma {:induction false} KeptInUnionIdentity(children: seq<Aspect>, atoms: seq<Aspect>)
    requires forall c :: c in children ==> !AbsorbedInUnion(c, atoms)
    ensures KeptInUnion(children, atoms) == children
  {
    if children != [] {
      KeptInUnionIdentity(children[..|children| - 1], atoms);
      assert children[|children| - 1] in children;
    }
  }

  lemma {:induction false} KeptInIntersectIdentity(children: seq<Aspect>, atoms: seq<Aspect>)
    requires forall c :: c in children ==> !AbsorbedInIntersect(c, atoms)
    ensures KeptInIntersect(children, atoms) == children
  {
    if children != [] {
      KeptInIntersectIdentity(children[..|children| - 1], atoms);
      assert children[|children| - 1] in children;
    }
  }

  /** A normal term is left alone. */
  lemma {:induction false} NormalIsFixed(t: Aspect)
    requires Normal(t)
    ensures Normalize(t) == t
    decreases t, 1
  {
    match t
    case Union(children) =>
      ProperUnionChildren(t);
      EachProperFixed(children);
      assert All !in children;
      FlatUnionIdentity(children);
      SortedTermsIdentity(children);
      KeptInUnionIdentity(children, children);
      assert UnionOf(children) == t;
    case Intersect(parts) =>
      ProperIntersectParts(t);
      EachProperFixed(parts);
      assert Empty !in parts;
      FlatIntersectIdentity(parts);
      SortedTermsIdentity(parts);
      KeptInIntersectIdentity(parts, parts);
      assert IntersectOf(parts) == t;
    case Complement(child) => NormalIsFixed(child);
    case _ =>
  }

  lemma {:induction false} EachProperFixed(terms: seq<Aspect>)
    requires forall c :: c in terms ==> Proper(c)
    ensures NormalizeEach(terms) == terms
    decreases terms, 0
  {
    if terms != [] {
      NormalIsFixed(terms[0]);
      EachProperFixed(terms[1..]);
      assert terms == [terms[0]] + terms[1..];
    }
  }

  /** Normalizing twice is normalizing once. */
  lemma NormalizeIdempotent(t: Aspect)
    ensures Normalize(Normalize(t)) == Normalize(t)
  {
    NormalizeIsNormal(t);
    NormalIsFixed(Normalize(t));
  }

  // ----- meaning

  /** The truth of a term when the leaves are read in some way. */
  predicate Holds(t: Aspect, reading: Aspect -> bool) {
    match t
    case Empty => false
    case All => true
    case Union(children) => exists c :: c in children && Holds(c, reading)
    case Intersect(parts) => forall c :: c in parts ==> Holds(c, reading)
    case Complement(child) => !Holds(child, reading)
    case _ => reading(t)
  }

  lemma FlatUnionMeans(children: seq<Aspect>, reading: Aspect -> bool)
    ensures (exists t :: t in FlatUnion(children) && Holds(t, reading))
       <==> (exists c :: c in children && Holds(c, reading))
  {
    FlatUnionMembers(children);
    if t :| t in FlatUnion(children) && Holds(t, reading) {
      var c :| c in children && ((c.Union? && t in c.children) || (!c.Union? && !c.Empty? && t == c));
      assert Holds(c, reading);
    }
    if c :| c in children && Holds(c, reading) {
      if c.Union? {
        var t :| t in c.children && Holds(t, reading);
        assert t in FlatUnion(children);
      } else {
        assert c in FlatUnion(children);
      }
    }
  }

  lemma FlatIntersectMeans(children: seq<Aspect>, reading: Aspect -> bool)
    ensures (forall t :: t in FlatIntersect(children) ==> Holds(t, reading))
       <==> (forall c :: c in children ==> Holds(c, reading))
  {
    FlatIntersectMembers(children);
    if forall t :: t in FlatIntersect(children) ==> Holds(t, reading) {
      forall c | c in children ensures Holds(c, reading) {
        if c.Intersect? {
          forall t | t in c.parts ensures Holds(t, reading) { assert t in FlatIntersect(children); }
        } else if !c.All? {
          assert c in FlatIntersect(children);
        }
      }
    }
    if forall c :: c in children ==> Holds(c, reading) {
      forall t | t in FlatIntersect(children) ensures Holds(t, reading) {
        var c :| c in children && ((c.Intersect? && t in c.parts) || (!c.Intersect? && !c.All? && t == c));
        assert Holds(c, reading);
      }
    }
  }

  /** A true operand that is absorbed leaves a true operand behind: a part of a normal meet is never a meet. */
  lemma AbsorptionKeepsUnion(flat: seq<Aspect>, reading: Aspect -> bool)
    requires forall t :: t in flat ==> Proper(t)
    ensures (exists t :: t in KeptInUnion(flat, flat) && Holds(t, reading))
       <==> (exists t :: t in flat && Holds(t, reading))
  {
    KeptInUnionMembers(flat, flat);
    if t :| t in flat && Holds(t, reading) {
      if AbsorbedInUnion(t, flat) {
        var part :| part in t.parts && part in flat;
        ProperIntersectParts(t);
        assert Holds(part, reading) && !part.Intersect?;
        assert part in KeptInUnion(flat, flat);
      } else {
        assert t in KeptInUnion(flat, flat);
      }
    }
  }

  lemma AbsorptionKeepsIntersect(flat: seq<Aspect>, reading: Aspect -> bool)
    requires forall t :: t in flat ==> Proper(t)
    ensures (forall t :: t in KeptInIntersect(flat, flat) ==> Holds(t, reading))
       <==> (forall t :: t in flat ==> Holds(t, reading))
  {
    KeptInIntersectMembers(flat, flat);
    if forall t :: t in KeptInIntersect(flat, flat) ==> Holds(t, reading) {
      forall t | t in flat ensures Holds(t, reading) {
        if AbsorbedInIntersect(t, flat) {
          var part :| part in t.children && part in flat;
          ProperUnionChildren(t);
          assert !part.Union?;
          assert part in KeptInIntersect(flat, flat);
        } else {
          assert t in KeptInIntersect(flat, flat);
        }
      }
    }
  }

  lemma UnionOfMeans(children: seq<Aspect>, reading: Aspect -> bool)
    requires forall c :: c in children ==> Normal(c)
    ensures Holds(UnionOf(children), reading) <==> exists c :: c in children && Holds(c, reading)
  {
    hide TermLte, Proper, AbsorbedInUnion, FlatUnion, KeptInUnion;
    if All in children {
      assert Holds(All, reading);
    } else {
      var flat := SortedTerms(FlatUnion(children));
      var kept := KeptInUnion(flat, flat);
      FlatUnionMeans(children, reading);
      UnionOperands(children);
      AbsorptionKeepsUnion(flat, reading);
      assert Holds(UnionOf(children), reading) <==> exists t :: t in kept && Holds(t, reading) by {
        SmallUnion(kept, reading);
      }
      assert (exists t :: t in flat && Holds(t, reading))
        <==> (exists t :: t in FlatUnion(children) && Holds(t, reading));
    }
  }

  lemma SmallUnion(kept: seq<Aspect>, reading: Aspect -> bool)
    ensures Holds(if |kept| == 0 then Empty else if |kept| == 1 then kept[0] else Union(kept), reading)
       <==> exists t :: t in kept && Holds(t, reading)
  {
    if |kept| == 1 { assert kept[0] in kept; }
  }

  lemma SmallIntersect(kept: seq<Aspect>, reading: Aspect -> bool)
    ensures Holds(if |kept| == 0 then All else if |kept| == 1 then kept[0] else Intersect(kept), reading)
       <==> forall t :: t in kept ==> Holds(t, reading)
  {
    if |kept| == 1 { assert kept[0] in kept; }
  }

  lemma IntersectOfMeans(children: seq<Aspect>, reading: Aspect -> bool)
    requires forall c :: c in children ==> Normal(c)
    ensures Holds(IntersectOf(children), reading) <==> forall c :: c in children ==> Holds(c, reading)
  {
    hide TermLte, Proper, AbsorbedInIntersect, FlatIntersect, KeptInIntersect;
    if Empty in children {
      assert !Holds(Empty, reading);
    } else {
      var flat := SortedTerms(FlatIntersect(children));
      var kept := KeptInIntersect(flat, flat);
      FlatIntersectMeans(children, reading);
      IntersectOperands(children);
      AbsorptionKeepsIntersect(flat, reading);
      assert Holds(IntersectOf(children), reading) <==> forall t :: t in kept ==> Holds(t, reading) by {
        SmallIntersect(kept, reading);
      }
      assert (forall t :: t in flat ==> Holds(t, reading))
        <==> (forall t :: t in FlatIntersect(children) ==> Holds(t, reading));
    }
  }

  /** Normalization keeps the truth of a term under every reading of its leaves. */
  lemma {:induction false} NormalizeKeepsMeaning(t: Aspect, reading: Aspect -> bool)
    ensures Holds(Normalize(t), reading) <==> Holds(t, reading)
    decreases t, 1
  {
    match t
    case Union(children) =>
      EachKeepsMeaning(children, reading);
      NormalizeEachIsNormal(children);
      UnionOfMeans(NormalizeEach(children), reading);
    case Intersect(parts) =>
      EachKeepsMeaning(parts, reading);
      NormalizeEachIsNormal(parts);
      IntersectOfMeans(NormalizeEach(parts), reading);
    case Complement(child) => NormalizeKeepsMeaning(child, reading);
    case _ =>
  }

  lemma {:induction false} EachKeepsMeaning(terms: seq<Aspect>, reading: Aspect -> bool)
    ensures (exists c :: c in NormalizeEach(terms) && Holds(c, reading))
       <==> (exists c :: c in terms && Holds(c, reading))
    ensures (forall c :: c in NormalizeEach(terms) ==> Holds(c, reading))
       <==> (forall c :: c in terms ==> Holds(c, reading))
    decreases terms, 0
  {
    if terms != [] {
      NormalizeKeepsMeaning(terms[0], reading);
      EachKeepsMeaning(terms[1..], reading);
      assert terms == [terms[0]] + terms[1..];
    }
  }
}
