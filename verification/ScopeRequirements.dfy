/** What an explanation demands of artifacts. */
module ScopeRequirements {
  import opened Outcomes

  type ExplanationId = nat
  type ArtifactId = nat

  datatype ArtifactKind = ReconstructionSetKind | LoomSketchKind | HpssKind | ModelClaimKind

  datatype HpssComponentKind = Harmonic | Percussive

  datatype ScopeKey =
    | TrackKey(track: nat)
    | ClusterKey(cluster: nat)
    | ComponentKey(component: HpssComponentKind)
    | ClaimKey(claim: nat)

  datatype Scope =
    | ArrangementClip(clip: nat)
    | PatternClip(pattern: nat)
    | ReconstructionTrack(artifact: ArtifactId, track: nat)
    | LoomSketch(artifact: ArtifactId, clusters: seq<nat>)
    | HpssComponent(artifact: ArtifactId, component: HpssComponentKind)
    | ModelClaim(artifact: ArtifactId, claim: nat)
    | Group(members: seq<ExplanationId>)

  type Store = map<ExplanationId, Scope>

  datatype Requirement = Requirement(kind: ArtifactKind, keys: set<ScopeKey>)

  type Requirements = map<ArtifactId, Requirement>

  datatype Demand = Demand(artifact: ArtifactId, kind: ArtifactKind, key: ScopeKey)

  datatype HydrationError =
    | CyclicExplanation(id: ExplanationId)
    | MissingExplanation(id: ExplanationId)
    | ConflictingArtifactKind(artifact: ArtifactId)

  /** The outcome, and the path set and requirements it leaves behind. */
  datatype Traversal = Traversal(
    outcome: Result<(), HydrationError>, visiting: set<ExplanationId>, requirements: Requirements)

  function ClusterDemands(artifact: ArtifactId, clusters: seq<nat>): (r: seq<Demand>)
    ensures |r| == |clusters|
    ensures forall i :: 0 <= i < |r| ==> r[i] == Demand(artifact, LoomSketchKind, ClusterKey(clusters[i]))
  {
    seq(|clusters|, i requires 0 <= i < |clusters| => Demand(artifact, LoomSketchKind, ClusterKey(clusters[i])))
  }

  /** What a scope demands by itself, in the order it is recorded. */
  function ScopeDemands(scope: Scope): seq<Demand> {
    match scope
    case ReconstructionTrack(artifact, track) => [Demand(artifact, ReconstructionSetKind, TrackKey(track))]
    case LoomSketch(artifact, clusters) => ClusterDemands(artifact, clusters)
    case HpssComponent(artifact, component) => [Demand(artifact, HpssKind, ComponentKey(component))]
    case ModelClaim(artifact, claim) => [Demand(artifact, ModelClaimKind, ClaimKey(claim))]
    case _ => []
  }

  /** The requirements after one demand; a conflict leaves them as they were. */
  function AddRequirement(requirements: Requirements, d: Demand): (Result<(), HydrationError>, Requirements) {
    if d.artifact !in requirements then (Ok(()), requirements[d.artifact := Requirement(d.kind, {d.key})])
    else if requirements[d.artifact].kind != d.kind then (Err(ConflictingArtifactKind(d.artifact)), requirements)
    else (Ok(()), requirements[d.artifact := Requirement(d.kind, requirements[d.artifact].keys + {d.key})])
  }

  function AddDemands(requirements: Requirements, demands: seq<Demand>): (Result<(), HydrationError>, Requirements)
    decreases demands
  {
    if demands == [] then (Ok(()), requirements)
    else
      var (outcome, after) := AddRequirement(requirements, demands[0]);
      if outcome.Err? then (outcome, after) else AddDemands(after, demands[1..])
  }

  /** Depth first, with the set of explanations on the current path. */
  function Collect(id: ExplanationId, store: Store, visiting: set<ExplanationId>, requirements: Requirements)
    : (r: Traversal)
    ensures r.outcome.Ok? ==> r.visiting == visiting
    decreases store.Keys - visiting, 1, 0
  {
    if id in visiting then Traversal(Err(CyclicExplanation(id)), visiting, requirements)
    else
      var path := visiting + {id};
      if id !in store then Traversal(Err(MissingExplanation(id)), path, requirements)
      else if store[id].Group? then
        assert store.Keys - path < store.Keys - visiting by { assert id !in store.Keys - path; }
        var r := CollectMembers(store[id].members, store, path, requirements);
        if r.outcome.Err? then r else r.(visiting := r.visiting - {id})
      else
        var (outcome, after) := AddDemands(requirements, ScopeDemands(store[id]));
        Traversal(outcome, if outcome.Ok? then path - {id} else path, after)
  }

  function CollectMembers(
      members: seq<ExplanationId>, store: Store, visiting: set<ExplanationId>, requirements: Requirements)
    : (r: Traversal)
    ensures r.outcome.Ok? ==> r.visiting == visiting
    decreases store.Keys - visiting, 2, members
  {
    if members == [] then Traversal(Ok(()), visiting, requirements)
    else
      var first := Collect(members[0], store, visiting, requirements);
      if first.outcome.Err? then first
      else CollectMembers(members[1..], store, first.visiting, first.requirements)
  }

  // ----- the graph

  predicate Edge(store: Store, a: ExplanationId, b: ExplanationId) {
    a in store && store[a].Group? && b in store[a].members
  }

  predicate IsPath(store: Store, p: seq<ExplanationId>) {
    |p| >= 1 && forall i :: 0 <= i < |p| - 1 ==> Edge(store, p[i], p[i + 1])
  }

  ghost predicate Reaches(store: Store, a: ExplanationId, b: ExplanationId) {
    exists p :: IsPath(store, p) && p[0] == a && p[|p| - 1] == b
  }

  /** The explanation lies on a cycle of groups. */
  ghost predicate OnCycle(store: Store, id: ExplanationId) {
    exists m :: Edge(store, id, m) && Reaches(store, m, id)
  }

  lemma ReachesSelf(store: Store, a: ExplanationId)
    ensures Reaches(store, a, a)
  {
    assert IsPath(store, [a]);
  }

  lemma ReachesByEdge(store: Store, a: ExplanationId, m: ExplanationId, b: ExplanationId)
    requires Edge(store, a, m) && Reaches(store, m, b)
    ensures Reaches(store, a, b)
  {
    var p :| IsPath(store, p) && p[0] == m && p[|p| - 1] == b;
    var q := [a] + p;
    forall i | 0 <= i < |q| - 1 ensures Edge(store, q[i], q[i + 1]) {
      if i > 0 { assert Edge(store, p[i - 1], p[i]); }
    }
    assert IsPath(store, q) && q[|q| - 1] == b;
  }

  /** A reachable explanation is the start itself or reachable from one of its members. */
  lemma ReachesStep(store: Store, a: ExplanationId, b: ExplanationId)
    requires Reaches(store, a, b) && a != b
    ensures exists m :: Edge(store, a, m) && Reaches(store, m, b)
  {
    var p :| IsPath(store, p) && p[0] == a && p[|p| - 1] == b;
    var q := p[1..];
    assert Edge(store, p[0], p[1]);
    forall i | 0 <= i < |q| - 1 ensures Edge(store, q[i], q[i + 1]) { assert Edge(store, p[i + 1], p[i + 2]); }
    assert IsPath(store, q) && q[0] == p[1] && q[|q| - 1] == b;
  }

  // ----- what must hold, and what is collected

  /** Everything reachable is defined, off the given path, and on no cycle. */
  ghost predicate Traversable(store: Store, id: ExplanationId, visiting: set<ExplanationId>) {
    forall x :: Reaches(store, id, x) ==> x in store && x !in visiting && !OnCycle(store, x)
  }

  /** Some reachable explanation makes the demand. */
  ghost predicate DemandsSomewhere(store: Store, id: ExplanationId, d: Demand) {
    exists x :: Reaches(store, id, x) && x in store && d in ScopeDemands(store[x])
  }

  /** The demands of everything reachable. */
  ghost function Demanded(store: Store, id: ExplanationId): iset<Demand> {
    iset d | DemandsSomewhere(store, id, d)
  }

  ghost predicate SomeMemberDemands(store: Store, members: seq<ExplanationId>, d: Demand) {
    exists m :: m in members && d in Demanded(store, m)
  }

  ghost function DemandedByAny(store: Store, members: seq<ExplanationId>): iset<Demand> {
    iset d | SomeMemberDemands(store, members, d)
  }

  /** No artifact is demanded, or was already required, under two kinds. */
  ghost predicate OneKind(requirements: Requirements, demands: iset<Demand>) {
    && (forall d, e :: d in demands && e in demands && d.artifact == e.artifact ==> d.kind == e.kind)
    && (forall d :: d in demands && d.artifact in requirements ==> requirements[d.artifact].kind == d.kind)
  }

  predicate Required(requirements: Requirements, d: Demand) {
    && d.artifact in requirements
    && requirements[d.artifact].kind == d.kind
    && d.key in requirements[d.artifact].keys
  }

  /** The later requirements are the earlier ones and the demands, and nothing else. */
  ghost predicate Extends(before: Requirements, after: Requirements, demands: iset<Demand>) {
    && (forall d :: Required(after, d) <==> Required(before, d) || d in demands)
    && (forall a :: a in after <==> a in before || exists d :: d in demands && d.artifact == a)
    && (forall a :: a in before && a in after ==> after[a].kind == before[a].kind)
    && (forall d :: d in demands && d.artifact in after ==> after[d.artifact].kind == d.kind)
  }

  lemma ExtendsTwice(a: Requirements, b: Requirements, c: Requirements, first: iset<Demand>, second: iset<Demand>)
    requires Extends(a, b, first) && Extends(b, c, second)
    ensures Extends(a, c, first + second)
  {
    assert forall d :: d in first ==> d.artifact in b && d.artifact in c;
  }

  /** The demands agree together exactly when they agree one after the other. */
  lemma OneKindTwice(a: Requirements, b: Requirements, first: iset<Demand>, second: iset<Demand>)
    requires OneKind(a, first) && Extends(a, b, first)
    ensures OneKind(a, first + second) <==> OneKind(b, second)
  {
    hide Required;
    assert forall d :: d in first ==> d.artifact in b && b[d.artifact].kind == d.kind;
    assert forall x :: x in a ==> x in b && b[x].kind == a[x].kind;
    if OneKind(b, second) {
      forall d, e | d in first + second && e in first + second && d.artifact == e.artifact ensures d.kind == e.kind {
        assert d in first || d in second;
        assert e in first || e in second;
      }
      forall d | d in first + second && d.artifact in a ensures a[d.artifact].kind == d.kind {
        assert d in first || d in second;
      }
    }
    if OneKind(a, first + second) {
      forall d | d in second && d.artifact in b ensures b[d.artifact].kind == d.kind {
        assert d in first + second;
        if d.artifact !in a {
          var e :| e in first && e.artifact == d.artifact;
          assert e in first + second;
        }
      }
      forall d, e | d in second && e in second && d.artifact == e.artifact ensures d.kind == e.kind {
        assert d in first + second && e in first + second;
      }
    }
  }

  lemma OneKindPart(requirements: Requirements, whole: iset<Demand>, part: iset<Demand>)
    requires OneKind(requirements, whole) && part <= whole
    ensures OneKind(requirements, part)
  {}

  lemma AddOneExactly(requirements: Requirements, d: Demand)
    ensures AddRequirement(requirements, d).0.Ok? <==> OneKind(requirements, iset{d})
    ensures AddRequirement(requirements, d).0.Ok? ==>
      Extends(requirements, AddRequirement(requirements, d).1, iset{d})
  {}

  lemma {:induction false} AddDemandsExactly(requirements: Requirements, demands: seq<Demand>)
    ensures AddDemands(requirements, demands).0.Ok? <==> OneKind(requirements, iset d | d in demands)
    ensures AddDemands(requirements, demands).0.Ok? ==>
      Extends(requirements, AddDemands(requirements, demands).1, iset d | d in demands)
    decreases demands
  {
    hide AddRequirement;
    var all := iset d | d in demands;
    if demands == [] {
      assert all == iset{};
    } else {
      hide OneKind, Extends;
      var first, rest := iset{demands[0]}, iset d | d in demands[1..];
      assert all == first + rest;
      AddOneExactly(requirements, demands[0]);
      var after := AddRequirement(requirements, demands[0]).1;
      if OneKind(requirements, all) { OneKindPart(requirements, all, first); }
      if OneKind(requirements, first) {
        AddDemandsExactly(after, demands[1..]);
        OneKindTwice(requirements, after, first, rest);
        if AddDemands(after, demands[1..]).0.Ok? {
          ExtendsTwice(requirements, after, AddDemands(after, demands[1..]).1, first, rest);
        }
      }
    }
  }

  // ----- leaves and groups

  lemma LeafReaches(store: Store, id: ExplanationId)
    requires id !in store || !store[id].Group?
    ensures forall x :: Reaches(store, id, x) <==> x == id
    ensures !OnCycle(store, id)
  {
    ReachesSelf(store, id);
    forall x | Reaches(store, id, x) ensures x == id {
      if x != id { ReachesStep(store, id, x); }
    }
  }

  lemma GroupDemands(store: Store, id: ExplanationId)
    requires id in store && store[id].Group?
    ensures Demanded(store, id) == DemandedByAny(store, store[id].members)
  {
    hide Reaches;
    forall d | d in Demanded(store, id) ensures d in DemandedByAny(store, store[id].members) {
      var x :| Reaches(store, id, x) && x in store && d in ScopeDemands(store[x]);
      ReachesStep(store, id, x);
      var m :| Edge(store, id, m) && Reaches(store, m, x);
      assert d in Demanded(store, m);
    }
    forall d | d in DemandedByAny(store, store[id].members) ensures d in Demanded(store, id) {
      var m :| m in store[id].members && d in Demanded(store, m);
      var x :| Reaches(store, m, x) && x in store && d in ScopeDemands(store[x]);
      assert Edge(store, id, m);
      ReachesByEdge(store, id, m, x);
    }
  }

  /** A group can be traversed exactly when its members can, with the group on the path. */
  lemma GroupTraversable(store: Store, id: ExplanationId, visiting: set<ExplanationId>)
    requires id in store && store[id].Group? && id !in visiting
    ensures Traversable(store, id, visiting) <==>
      forall m :: m in store[id].members ==> Traversable(store, m, visiting + {id})
  {
    hide Reaches;
    ReachesSelf(store, id);
    if Traversable(store, id, visiting) {
      forall m, x | m in store[id].members && Reaches(store, m, x)
        ensures x in store && x !in visiting + {id} && !OnCycle(store, x)
      {
        assert Edge(store, id, m);
        ReachesByEdge(store, id, m, x);
      }
    }
    if forall m :: m in store[id].members ==> Traversable(store, m, visiting + {id}) {
      forall m | Edge(store, id, m) ensures !Reaches(store, m, id) {
        assert Traversable(store, m, visiting + {id});
      }
      assert !OnCycle(store, id);
      forall x | Reaches(store, id, x) ensures x in store && x !in visiting && !OnCycle(store, x) {
        if x != id {
          ReachesStep(store, id, x);
          var m :| Edge(store, id, m) && Reaches(store, m, x);
          assert Traversable(store, m, visiting + {id});
        }
      }
    }
  }

  // ----- the traversal

  /** The traversal succeeds exactly on traversable, agreeing demands, and then records exactly those. */
  ghost predicate CollectsExactly(
      r: Traversal, traversable: bool, requirements: Requirements, demands: iset<Demand>)
  {
    && (r.outcome.Ok? <==> traversable && OneKind(requirements, demands))
    && (r.outcome.Ok? ==> Extends(requirements, r.requirements, demands))
  }

  lemma {:induction false} CollectExactly(
      id: ExplanationId, store: Store, visiting: set<ExplanationId>, requirements: Requirements)
    ensures CollectsExactly(Collect(id, store, visiting, requirements),
                            Traversable(store, id, visiting), requirements, Demanded(store, id))
    decreases store.Keys - visiting, 1, 0
  {
    hide Reaches, OnCycle, OneKind, Extends, AddDemands, ScopeDemands;
    ReachesSelf(store, id);
    if id !in visiting && id in store {
      if store[id].Group? {
        assert store.Keys - (visiting + {id}) < store.Keys - visiting by {
          assert id !in store.Keys - (visiting + {id});
        }
        hide Traversable, Demanded;
        GroupTraversable(store, id, visiting);
        GroupDemands(store, id);
        CollectMembersExactly(store[id].members, store, visiting + {id}, requirements);
      } else {
        LeafReaches(store, id);
        var demands := ScopeDemands(store[id]);
        AddDemandsExactly(requirements, demands);
        assert Demanded(store, id) == iset d | d in demands;
      }
    }
  }

  lemma {:induction false} CollectMembersExactly(
      members: seq<ExplanationId>, store: Store, visiting: set<ExplanationId>, requirements: Requirements)
    ensures CollectsExactly(CollectMembers(members, store, visiting, requirements),
                            forall m :: m in members ==> Traversable(store, m, visiting),
                            requirements, DemandedByAny(store, members))
    decreases store.Keys - visiting, 2, members
  {
    hide Traversable, Demanded, Collect;
    if members == [] {
      assert DemandedByAny(store, members) == iset{};
    } else {
      hide OneKind, Extends;
      var first, rest := members[0], members[1..];
      assert members == [first] + rest;
      var all := DemandedByAny(store, members);
      assert all == Demanded(store, first) + DemandedByAny(store, rest);
      CollectExactly(first, store, visiting, requirements);
      var r := Collect(first, store, visiting, requirements);
      if OneKind(requirements, all) { OneKindPart(requirements, all, Demanded(store, first)); }
      if r.outcome.Ok? {
        CollectMembersExactly(rest, store, visiting, r.requirements);
        OneKindTwice(requirements, r.requirements, Demanded(store, first), DemandedByAny(store, rest));
        var s := CollectMembers(rest, store, visiting, r.requirements);
        if s.outcome.Ok? {
          ExtendsTwice(requirements, r.requirements, s.requirements,
                       Demanded(store, first), DemandedByAny(store, rest));
        }
      }
    }
  }

  /** Every explanation reachable from the root is defined and on no cycle; shared groups do not matter. */
  ghost predicate WellFounded(store: Store, root: ExplanationId) {
    forall x :: Reaches(store, root, x) ==> x in store && !OnCycle(store, x)
  }

  /**
   * From an empty path and empty requirements the traversal ends on every finite graph. It succeeds exactly when
   * nothing reachable is missing, cyclic or demanded under two kinds; the path set is then empty again and the
   * requirements hold exactly the reachable demands.
   */
  lemma RequirementsExact(root: ExplanationId, store: Store)
    ensures var r := Collect(root, store, {}, map[]);
      && (r.outcome.Ok? <==> WellFounded(store, root) && OneKind(map[], Demanded(store, root)))
      && (r.outcome.Ok? ==>
            && r.visiting == {}
            && (forall d :: Required(r.requirements, d) <==> d in Demanded(store, root))
            && (forall a :: a in r.requirements <==> exists d :: d in Demanded(store, root) && d.artifact == a))
  {
    hide Reaches, OnCycle, Demanded, Collect, OneKind;
    CollectExactly(root, store, {}, map[]);
  }

  /** What a scope asks for by itself: nothing for clips and groups, one key or one per cluster for the others. */
  predicate AsksFor(scope: Scope, artifact: ArtifactId, kind: ArtifactKind, key: ScopeKey) {
    || (scope.ReconstructionTrack? && scope.artifact == artifact
        && kind == ReconstructionSetKind && key == TrackKey(scope.track))
    || (scope.LoomSketch? && scope.artifact == artifact
        && kind == LoomSketchKind && key.ClusterKey? && key.cluster in scope.clusters)
    || (scope.HpssComponent? && scope.artifact == artifact
        && kind == HpssKind && key == ComponentKey(scope.component))
    || (scope.ModelClaim? && scope.artifact == artifact
        && kind == ModelClaimKind && key == ClaimKey(scope.claim))
  }

  lemma AsksExactly(scope: Scope, d: Demand)
    ensures d in ScopeDemands(scope) <==> AsksFor(scope, d.artifact, d.kind, d.key)
  {
    if scope.LoomSketch? {
      var demands := ClusterDemands(scope.artifact, scope.clusters);
      if AsksFor(scope, d.artifact, d.kind, d.key) {
        var i :| 0 <= i < |scope.clusters| && scope.clusters[i] == d.key.cluster;
        assert demands[i] == d;
      }
    }
  }

  /** A successful traversal requires a key of an artifact exactly when a reachable scope asks for it so. */
  lemma RequiresWhatScopesAsk(
      root: ExplanationId, store: Store, artifact: ArtifactId, kind: ArtifactKind, key: ScopeKey)
    requires Collect(root, store, {}, map[]).outcome.Ok?
    ensures var requirements := Collect(root, store, {}, map[]).requirements;
      (artifact in requirements && requirements[artifact].kind == kind && key in requirements[artifact].keys) <==>
        exists x :: Reaches(store, root, x) && x in store && AsksFor(store[x], artifact, kind, key)
  {
    hide Collect, Reaches, OneKind, AsksFor, ScopeDemands, WellFounded;
    RequirementsExact(root, store);
    var d := Demand(artifact, kind, key);
    var requirements := Collect(root, store, {}, map[]).requirements;
    assert Required(requirements, d) <==> d in Demanded(store, root);
    assert d in Demanded(store, root) <==> DemandsSomewhere(store, root, d);
    forall x | x in store ensures d in ScopeDemands(store[x]) <==> AsksFor(store[x], artifact, kind, key) {
      AsksExactly(store[x], d);
    }
  }

  // ----- refusals

  /** Each refusal names a real fault: a reachable cycle or absence, or an artifact under two kinds. */
  ghost predicate Truthful(
      error: HydrationError, store: Store, ids: iset<ExplanationId>, visiting: set<ExplanationId>,
      requirements: Requirements, demands: iset<Demand>)
  {
    match error
    case CyclicExplanation(x) =>
      (exists id :: id in ids && Reaches(store, id, x)) && (x in visiting || OnCycle(store, x))
    case MissingExplanation(x) => (exists id :: id in ids && Reaches(store, id, x)) && x !in store
    case ConflictingArtifactKind(a) =>
      exists d :: d in demands && d.artifact == a &&
        ((a in requirements && requirements[a].kind != d.kind)
         || exists e :: e in demands && e.artifact == a && e.kind != d.kind)
  }

  lemma {:induction false} AddDemandsTruthful(requirements: Requirements, demands: seq<Demand>)
    ensures AddDemands(requirements, demands).0.Err? ==>
      && AddDemands(requirements, demands).0.error.ConflictingArtifactKind?
      && Truthful(AddDemands(requirements, demands).0.error, map[], iset{}, {}, requirements, iset d | d in demands)
    decreases demands
  {
    if demands != [] && AddDemands(requirements, demands).0.Err? {
      var (outcome, after) := AddRequirement(requirements, demands[0]);
      assert demands[0] in demands;
      if outcome.Ok? {
        AddDemandsTruthful(after, demands[1..]);
        var a := AddDemands(after, demands[1..]).0.error.artifact;
        var d :| d in demands[1..] && d.artifact == a &&
          ((a in after && after[a].kind != d.kind)
           || exists e :: e in (iset x | x in demands[1..]) && e.artifact == a && e.kind != d.kind);
        assert d in demands;
        if e :| e in demands[1..] && e.artifact == a && e.kind != d.kind { assert e in demands; }
      }
    }
  }

  lemma {:induction false} CollectTruthful(
      id: ExplanationId, store: Store, visiting: set<ExplanationId>, requirements: Requirements)
    ensures Collect(id, store, visiting, requirements).outcome.Err? ==>
      Truthful(Collect(id, store, visiting, requirements).outcome.error, store, iset{id}, visiting,
               requirements, Demanded(store, id))
    decreases store.Keys - visiting, 1, 0
  {
    hide Reaches, OnCycle, AddDemands, ScopeDemands;
    ReachesSelf(store, id);
    if id !in visiting && id in store {
      if store[id].Group? {
        assert store.Keys - (visiting + {id}) < store.Keys - visiting by {
          assert id !in store.Keys - (visiting + {id});
        }
        hide Demanded;
        GroupDemands(store, id);
        var members := store[id].members;
        CollectMembersTruthful(members, store, visiting + {id}, requirements);
        var r := CollectMembers(members, store, visiting + {id}, requirements);
        if r.outcome.Err? && !r.outcome.error.ConflictingArtifactKind? {
          var x := r.outcome.error.id;
          var m :| m in members && Reaches(store, m, x);
          assert Edge(store, id, m);
          ReachesByEdge(store, id, m, x);
          if x == id { CycleThrough(store, id, m); }
        }
      } else {
        LeafReaches(store, id);
        var demands := ScopeDemands(store[id]);
        AddDemandsTruthful(requirements, demands);
        assert Demanded(store, id) == iset d | d in demands;
      }
    }
  }

  lemma CycleThrough(store: Store, id: ExplanationId, m: ExplanationId)
    requires Edge(store, id, m) && Reaches(store, m, id)
    ensures OnCycle(store, id)
  {}

  lemma {:induction false} CollectMembersTruthful(
      members: seq<ExplanationId>, store: Store, visiting: set<ExplanationId>, requirements: Requirements)
    ensures CollectMembers(members, store, visiting, requirements).outcome.Err? ==>
      Truthful(CollectMembers(members, store, visiting, requirements).outcome.error, store,
               (iset m | m in members), visiting, requirements, DemandedByAny(store, members))
    decreases store.Keys - visiting, 2, members
  {
    hide Reaches, OnCycle, Demanded, Collect;
    if members != [] && CollectMembers(members, store, visiting, requirements).outcome.Err? {
      var first, rest := members[0], members[1..];
      assert members == [first] + rest;
      CollectTruthful(first, store, visiting, requirements);
      var r := Collect(first, store, visiting, requirements);
      assert forall d :: d in Demanded(store, first) ==> d in DemandedByAny(store, members);
      if r.outcome.Ok? {
        CollectMembersTruthful(rest, store, visiting, r.requirements);
        CollectExactly(first, store, visiting, requirements);
        assert forall d :: d in DemandedByAny(store, rest) ==> d in DemandedByAny(store, members);
        var error := CollectMembers(rest, store, visiting, r.requirements).outcome.error;
        if error.ConflictingArtifactKind? {
          ConflictEarlier(error.artifact, requirements, r.requirements, Demanded(store, first),
                          DemandedByAny(store, rest), DemandedByAny(store, members));
        }
      }
    }
  }

  lemma ConflictEarlier(
      a: ArtifactId, before: Requirements, after: Requirements,
      first: iset<Demand>, rest: iset<Demand>, all: iset<Demand>)
    requires Extends(before, after, first) && first <= all && rest <= all
    requires Truthful(ConflictingArtifactKind(a), map[], iset{}, {}, after, rest)
    ensures Truthful(ConflictingArtifactKind(a), map[], iset{}, {}, before, all)
  {
    hide Required;
    var d :| d in rest && d.artifact == a &&
      ((a in after && after[a].kind != d.kind) || exists e :: e in rest && e.artifact == a && e.kind != d.kind);
    assert d in all;
    if e :| e in rest && e.artifact == a && e.kind != d.kind {
      assert e in all;
    } else if a !in before {
      var e :| e in first && e.artifact == a;
      assert e in all && e.kind == after[a].kind;
    }
  }

  // ----- the traversal in place

  /** The path set and the requirements that a traversal updates. */
  class ScopeCollector {
    const store: Store
    var visiting: set<ExplanationId>
    var requirements: Requirements

    constructor (store: Store)
      ensures this.store == store && visiting == {} && requirements == map[]
    {
      this.store := store;
      visiting := {};
      requirements := map[];
    }

    method Add(d: Demand) returns (r: Result<(), HydrationError>)
      modifies this`requirements
      ensures r == AddRequirement(old(requirements), d).0
      ensures requirements == AddRequirement(old(requirements), d).1
    {
      if d.artifact !in requirements {
        requirements := requirements[d.artifact := Requirement(d.kind, {})];
      }
      var entry := requirements[d.artifact];
      if entry.kind != d.kind { return Err(ConflictingArtifactKind(d.artifact)); }
      requirements := requirements[d.artifact := Requirement(entry.kind, entry.keys + {d.key})];
      assert d.artifact !in old(requirements) ==> entry.keys + {d.key} == {d.key};
      r := Ok(());
    }

    method AddAll(demands: seq<Demand>) returns (r: Result<(), HydrationError>)
      modifies this`requirements
      ensures (r, requirements) == AddDemands(old(requirements), demands)
    {
      for i := 0 to |demands|
        invariant AddDemands(requirements, demands[i..]) == AddDemands(old(requirements), demands)
      {
        assert demands[i..][1..] == demands[i + 1..];
        r := Add(demands[i]);
        if r.Err? { return; }
      }
      r := Ok(());
    }

    method CollectFrom(id: ExplanationId) returns (r: Result<(), HydrationError>)
      modifies this`visiting, this`requirements
      ensures r == Collect(id, store, old(visiting), old(requirements)).outcome
      ensures visiting == Collect(id, store, old(visiting), old(requirements)).visiting
      ensures requirements == Collect(id, store, old(visiting), old(requirements)).requirements
      decreases store.Keys - visiting, 1, 0
    {
      if id in visiting { return Err(CyclicExplanation(id)); }
      ghost var outer := store.Keys - visiting;
      visiting := visiting + {id};
      if id !in store { return Err(MissingExplanation(id)); }
      assert store.Keys - visiting < outer by { assert id in outer && id !in store.Keys - visiting; }
      ghost var path, given := visiting, requirements;
      match store[id] {
        case Group(members) =>
          for i := 0 to |members|
            invariant visiting == path
            invariant CollectMembers(members[i..], store, path, requirements) ==
                      CollectMembers(members, store, path, given)
          {
            assert members[i..][1..] == members[i + 1..];
            r := CollectFrom(members[i]);
            if r.Err? { return; }
          }
          assert members[|members|..] == [];
          r := Ok(());
        case _ =>
          r := AddAll(ScopeDemands(store[id]));
          if r.Err? { return; }
      }
      visiting := visiting - {id};
    }
  }
}
