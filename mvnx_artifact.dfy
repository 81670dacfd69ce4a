/**
 * MavenExecutor.Artifact (and its standalone twin io.github.arlol.mvnx.Artifact): a Maven
 * artifact with its parent POM, its dependencies and its managed dependencies. The object
 * graph the Java code builds is a tree here: every artifact holds its parent and its
 * dependencies as values.
 */
module MvnxArtifact {
  import opened Wrappers
  import opened JavaLang
  import opened LinkedSets

  datatype Artifact = Artifact(
    parent: Option<Artifact>,
    groupId: Option<string>,
    artifactId: Option<string>,
    version: Option<string>,
    packaging: Option<string>,
    classifier: Option<string>,
    scope: Option<string>,
    optional: bool,
    dependencyManagement: seq<Artifact>,
    dependencies: seq<Artifact>,
    properties: map<string, string>)

  /** new Artifact(): every field null, not optional, no entries. */
  function Empty(): Artifact {
    Artifact(None, None, None, None, None, None, None, false, [], [], map[])
  }

  // ---------------------------------------------------------------------------
  // Identity: equalsArtifact, equals, hashCode

  /** The fields equals compares, in the order hashCode hashes them. */
  datatype Identity = Identity(artifactId: Option<string>, classifier: Option<string>, groupId: Option<string>,
                               packaging: Option<string>, version: Option<string>)

  function Id(a: Artifact): Identity {
    Identity(a.artifactId, a.classifier, a.groupId, a.packaging, a.version)
  }

  /** equalsArtifact: the same coordinate, whatever the version. */
  predicate EqualsArtifact(a: Artifact, other: Artifact) {
    ObjectsEquals(a.artifactId, other.artifactId) && ObjectsEquals(a.classifier, other.classifier)
    && ObjectsEquals(a.groupId, other.groupId) && ObjectsEquals(a.packaging, other.packaging)
  }

  /**
   * equals(Object): false for null and for another class, otherwise the five fields compared.
   * The `this == obj` shortcut gives the same answer, since an object's fields equal themselves.
   */
  predicate Equals(a: Artifact, obj: Ref<Artifact>) {
    match obj
    case Null => false
    case OtherClass => false
    case Instance(other) =>
      ObjectsEquals(a.artifactId, other.artifactId) && ObjectsEquals(a.classifier, other.classifier)
      && ObjectsEquals(a.groupId, other.groupId) && ObjectsEquals(a.packaging, other.packaging)
      && ObjectsEquals(a.version, other.version)
  }

  /** hashCode: Objects.hash(artifactId, classifier, groupId, packaging, version). */
  function HashCode(a: Artifact): (r: int)
    ensures -TWO_31 <= r < TWO_31
  {
    ObjectsHash([a.artifactId, a.classifier, a.groupId, a.packaging, a.version])
  }

  /** equals is equalsArtifact plus an equal version. */
  lemma EqualsIsEqualsArtifactAndVersion(a: Artifact, b: Artifact)
    ensures Equals(a, Instance(b)) <==> EqualsArtifact(a, b) && a.version == b.version
  {
  }

  /** equals holds exactly between artifacts with the same identity, so a LinkedHashSet of artifacts is keyed by Id. */
  lemma EqualsIffSameId(a: Artifact, b: Artifact)
    ensures Equals(a, Instance(b)) <==> Id(a) == Id(b)
  {
  }

  lemma EqualsNullOrOtherClass(a: Artifact)
    ensures !Equals(a, Null) && !Equals(a, OtherClass)
  {
  }

  /** equals is an equivalence relation on artifacts. */
  lemma EqualsEquivalence(a: Artifact, b: Artifact, c: Artifact)
    ensures Equals(a, Instance(a))
    ensures Equals(a, Instance(b)) ==> Equals(b, Instance(a))
    ensures Equals(a, Instance(b)) && Equals(b, Instance(c)) ==> Equals(a, Instance(c))
  {
  }

  /** Equal artifacts have equal hash codes. */
  lemma HashCodeConsistent(a: Artifact, b: Artifact)
    requires Equals(a, Instance(b))
    ensures HashCode(a) == HashCode(b)
  {
  }

  /** equalsArtifact is an equivalence relation, blind to version and scope. */
  lemma EqualsArtifactEquivalence(a: Artifact, b: Artifact, c: Artifact, v: Option<string>, s: Option<string>)
    ensures EqualsArtifact(a, a)
    ensures EqualsArtifact(a, b) ==> EqualsArtifact(b, a)
    ensures EqualsArtifact(a, b) && EqualsArtifact(b, c) ==> EqualsArtifact(a, c)
    ensures EqualsArtifact(a, b) <==> EqualsArtifact(a, b.(version := v, scope := s))
  {
  }

  // ---------------------------------------------------------------------------
  // hierarchy and allProperties

  /** hierarchy(): the chain of parents, root first, ending with the artifact itself. */
  function Hierarchy(a: Artifact): (r: seq<Artifact>)
    ensures |r| >= 1 && r[|r| - 1] == a
    ensures r[0].parent.None?
    ensures forall i :: 0 < i < |r| ==> r[i].parent == Some(r[i - 1])
    decreases a
  {
    if a.parent.Some? then Hierarchy(a.parent.value) + [a] else [a]
  }

  /** A later map's entries win over an earlier one's, as consecutive putAll calls do. */
  function Merge(ms: seq<map<string, string>>): (r: map<string, string>)
    decreases |ms|
  {
    if |ms| == 0 then map[] else Merge(ms[..|ms| - 1]) + ms[|ms| - 1]
  }

  /** The properties maps of a list of artifacts. */
  function PropertyMaps(h: seq<Artifact>): (r: seq<map<string, string>>)
    ensures |r| == |h| && forall i :: 0 <= i < |h| ==> r[i] == h[i].properties
  {
    seq(|h|, i requires 0 <= i < |h| => h[i].properties)
  }

  /** allProperties(List.of()): the parent's properties, overridden by the artifact's own. */
  function OwnProperties(a: Artifact): map<string, string>
    decreases a
  {
    (if a.parent.Some? then OwnProperties(a.parent.value) else map[]) + a.properties
  }

  /** allProperties(dependents): the artifact's own properties, then each dependent's, later ones winning. */
  function AllProperties(a: Artifact, dependents: seq<Artifact>): map<string, string>
    decreases |dependents|
  {
    if |dependents| == 0 then OwnProperties(a)
    else AllProperties(a, dependents[..|dependents| - 1]) + OwnProperties(dependents[|dependents| - 1])
  }

  /** The last map that defines k. */
  function LastDefiner(ms: seq<map<string, string>>, k: string): (i: int)
    ensures -1 <= i < |ms|
    ensures i >= 0 ==> k in ms[i]
    ensures forall j :: i < j < |ms| ==> k !in ms[j]
    decreases |ms|
  {
    if |ms| == 0 then -1
    else if k in ms[|ms| - 1] then |ms| - 1
    else LastDefiner(ms[..|ms| - 1], k)
  }

  /** A merged map defines k when some map does, with the value of the last one that does. */
  lemma {:induction false} MergeLookup(ms: seq<map<string, string>>, k: string)
    ensures var i := LastDefiner(ms, k);
      (k in Merge(ms) <==> i >= 0) && (i >= 0 ==> Merge(ms)[k] == ms[i][k])
    decreases |ms|
  {
    if |ms| > 0 {
      var n := |ms| - 1;
      MergeLookup(ms[..n], k);
      if k !in ms[n] {
        var i := LastDefiner(ms[..n], k);
        if i >= 0 { assert ms[..n][i] == ms[i]; }
      }
    }
  }

  /** Merging one map more. */
  lemma MergeSnoc(ms: seq<map<string, string>>, m: map<string, string>)
    ensures Merge(ms + [m]) == Merge(ms) + m
  {
    assert (ms + [m])[..|ms|] == ms;
  }

  /** allProperties(List.of()) merges the hierarchy's properties root first: the nearest definition wins. */
  lemma {:induction false} OwnPropertiesMergeHierarchy(a: Artifact)
    ensures OwnProperties(a) == Merge(PropertyMaps(Hierarchy(a)))
    decreases a
  {
    if a.parent.Some? {
      var p := a.parent.value;
      OwnPropertiesMergeHierarchy(p);
      assert PropertyMaps(Hierarchy(a)) == PropertyMaps(Hierarchy(p)) + [a.properties];
      MergeSnoc(PropertyMaps(Hierarchy(p)), a.properties);
    } else {
      assert PropertyMaps([a]) == [a.properties];
      assert [a.properties][..0] == [];
    }
  }

  /** The merged properties of each dependent, in order. */
  function OwnPropertiesOf(ds: seq<Artifact>): (r: seq<map<string, string>>)
    ensures |r| == |ds| && forall i :: 0 <= i < |ds| ==> r[i] == OwnProperties(ds[i])
  {
    seq(|ds|, i requires 0 <= i < |ds| => OwnProperties(ds[i]))
  }

  /** allProperties(dependents) merges the artifact's own properties first and each dependent's after it. */
  lemma {:induction false} AllPropertiesMerge(a: Artifact, ds: seq<Artifact>)
    ensures AllProperties(a, ds) == Merge([OwnProperties(a)] + OwnPropertiesOf(ds))
    decreases |ds|
  {
    if |ds| == 0 {
      assert [OwnProperties(a)] + OwnPropertiesOf(ds) == [OwnProperties(a)];
      assert [OwnProperties(a)][..0] == [];
    } else {
      var n := |ds| - 1;
      AllPropertiesMerge(a, ds[..n]);
      assert [OwnProperties(a)] + OwnPropertiesOf(ds) == ([OwnProperties(a)] + OwnPropertiesOf(ds[..n])) + [OwnProperties(ds[n])];
      MergeSnoc([OwnProperties(a)] + OwnPropertiesOf(ds[..n]), OwnProperties(ds[n]));
    }
  }

  /**
   * A property defined by a dependent (and no later one) takes that dependent's value,
   * whatever the artifact itself says.
   */
  lemma DependentPropertyWins(a: Artifact, ds: seq<Artifact>, j: nat, k: string)
    requires j < |ds| && k in OwnProperties(ds[j])
    requires forall l :: j < l < |ds| ==> k !in OwnProperties(ds[l])
    ensures k in AllProperties(a, ds) && AllProperties(a, ds)[k] == OwnProperties(ds[j])[k]
  {
    var ms := [OwnProperties(a)] + OwnPropertiesOf(ds);
    AllPropertiesMerge(a, ds);
    MergeLookup(ms, k);
    assert ms[j + 1] == OwnProperties(ds[j]);
  }

  /** A property no dependent defines keeps the artifact's own value, or stays absent. */
  lemma OwnPropertyKept(a: Artifact, ds: seq<Artifact>, k: string)
    requires forall l :: 0 <= l < |ds| ==> k !in OwnProperties(ds[l])
    ensures k in AllProperties(a, ds) <==> k in OwnProperties(a)
    ensures k in OwnProperties(a) ==> AllProperties(a, ds)[k] == OwnProperties(a)[k]
  {
    var ms := [OwnProperties(a)] + OwnPropertiesOf(ds);
    AllPropertiesMerge(a, ds);
    MergeLookup(ms, k);
  }

  // ---------------------------------------------------------------------------
  // manage(dependents)

  /** Each artifact's dependencies followed by its dependencyManagement, artifact after artifact. */
  function Entries(h: seq<Artifact>): seq<Artifact>
    decreases |h|
  {
    if |h| == 0 then [] else h[0].dependencies + h[0].dependencyManagement + Entries(h[1..])
  }

  /** The hierarchies of the dependents, one after the other. */
  function Lineage(dependents: seq<Artifact>): seq<Artifact>
    decreases |dependents|
  {
    if |dependents| == 0 then [] else Hierarchy(dependents[0]) + Lineage(dependents[1..])
  }

  /** The entries that equalsArtifact the artifact, in order. */
  function Matching(a: Artifact, xs: seq<Artifact>): (r: seq<Artifact>)
    ensures forall i :: 0 <= i < |r| ==> EqualsArtifact(a, r[i])
    decreases |xs|
  {
    if |xs| == 0 then []
    else (if EqualsArtifact(a, xs[0]) then [xs[0]] else []) + Matching(a, xs[1..])
  }

  /** The stream manage walks: dependents, each hierarchy root first, dependencies before management. */
  function Candidates(a: Artifact, dependents: seq<Artifact>): seq<Artifact> {
    Matching(a, Entries(Lineage(dependents)))
  }

  function VersionOf(a: Artifact): Option<string> { a.version }
  function ScopeOf(a: Artifact): Option<string> { a.scope }

  /** The position of the first artifact whose field is set, or |xs| when there is none. */
  function FirstSet(xs: seq<Artifact>, field: Artifact -> Option<string>): (i: nat)
    ensures i <= |xs|
    ensures forall j :: 0 <= j < i ==> field(xs[j]).None?
    ensures i < |xs| ==> field(xs[i]).Some?
    decreases |xs|
  {
    if |xs| == 0 then 0 else if field(xs[0]).Some? then 0 else 1 + FirstSet(xs[1..], field)
  }

  /** The first non-null value of the field, or null. */
  function FirstNonNull(xs: seq<Artifact>, field: Artifact -> Option<string>): Option<string> {
    var i := FirstSet(xs, field);
    if i < |xs| then field(xs[i]) else None
  }

  /** manage's effect: the first non-null version replaces the version, the first non-null scope (or `compile`) the scope. */
  function Managed(a: Artifact, dependents: seq<Artifact>): Artifact {
    var cs := Candidates(a, dependents);
    var version := FirstNonNull(cs, VersionOf);
    var scope := FirstNonNull(cs, ScopeOf);
    a.(version := if version.Some? then version else a.version, scope := Some(scope.GetOr("compile")))
  }

  /** The position FirstSet finds is the only one with its defining property. */
  lemma FirstSetUnique(xs: seq<Artifact>, field: Artifact -> Option<string>, i: nat)
    requires i <= |xs|
    requires forall j :: 0 <= j < i ==> field(xs[j]).None?
    requires i < |xs| ==> field(xs[i]).Some?
    ensures FirstSet(xs, field) == i
  {
  }

  /** What a prefix sees: the first set field when it lies in the prefix, else nothing. */
  lemma FirstNonNullPrefix(xs: seq<Artifact>, field: Artifact -> Option<string>, n: nat)
    requires n <= |xs|
    ensures var k := FirstSet(xs, field);
      FirstNonNull(xs[..n], field) == if k < n then field(xs[k]) else None
  {
    var k := FirstSet(xs, field);
    if k < n {
      FirstSetUnique(xs[..n], field, k);
      assert xs[..n][k] == xs[k];
    } else {
      FirstSetUnique(xs[..n], field, n);
    }
  }

  /** The first non-null value of a concatenation comes from the first part when it has one. */
  lemma FirstNonNullAppend(xs: seq<Artifact>, ys: seq<Artifact>, field: Artifact -> Option<string>)
    ensures FirstNonNull(xs + ys, field) ==
      if FirstNonNull(xs, field).Some? then FirstNonNull(xs, field) else FirstNonNull(ys, field)
  {
    var k := FirstSet(xs, field);
    if k < |xs| {
      FirstSetUnique(xs + ys, field, k);
      assert (xs + ys)[k] == xs[k];
    } else {
      var l := FirstSet(ys, field);
      assert forall j :: 0 <= j < |xs| ==> (xs + ys)[j] == xs[j];
      assert forall j :: |xs| <= j < |xs| + l ==> (xs + ys)[j] == ys[j - |xs|];
      if l < |ys| { assert (xs + ys)[|xs| + l] == ys[l]; }
      FirstSetUnique(xs + ys, field, |xs| + l);
    }
  }

  /** One more entry seen: a field already found stays, otherwise the entry's value is taken. */
  lemma FirstNonNullStep(xs: seq<Artifact>, field: Artifact -> Option<string>, i: nat)
    requires i < |xs|
    ensures var cur := FirstNonNull(xs[..i], field);
      FirstNonNull(xs[..i + 1], field) == if cur.None? then field(xs[i]) else cur
  {
    FirstNonNullPrefix(xs, field, i);
    FirstNonNullPrefix(xs, field, i + 1);
  }

  /** A field found in a prefix is the field found in the whole list. */
  lemma FirstNonNullFound(xs: seq<Artifact>, field: Artifact -> Option<string>, i: nat)
    requires i <= |xs| && FirstNonNull(xs[..i], field).Some?
    ensures FirstNonNull(xs, field) == FirstNonNull(xs[..i], field)
  {
    FirstNonNullPrefix(xs, field, i);
    FirstNonNullPrefix(xs, field, |xs|);
    assert xs[..|xs|] == xs;
  }

  /**
   * The loop of Artifact.manage over the matching entries: it remembers the first non-null
   * version and the first non-null scope, and stops as soon as it has both.
   */
  method ScanEntries(artifacts: seq<Artifact>) returns (version: Option<string>, scope: Option<string>)
    ensures version == FirstNonNull(artifacts, VersionOf)
    ensures scope == FirstNonNull(artifacts, ScopeOf)
  {
    version := None;
    scope := None;
    var i := 0;
    assert artifacts[..0] == [];
    while i < |artifacts|
      invariant 0 <= i <= |artifacts|
      invariant version == FirstNonNull(artifacts[..i], VersionOf)
      invariant scope == FirstNonNull(artifacts[..i], ScopeOf)
    {
      FirstNonNullStep(artifacts, VersionOf, i);
      FirstNonNullStep(artifacts, ScopeOf, i);
      if version.None? {
        version := artifacts[i].version;
      }
      if scope.None? {
        scope := artifacts[i].scope;
      }
      if version.Some? && scope.Some? {
        FirstNonNullFound(artifacts, VersionOf, i + 1);
        FirstNonNullFound(artifacts, ScopeOf, i + 1);
        return;
      }
      i := i + 1;
    }
    assert artifacts[..i] == artifacts;
  }

  /**
   * Artifact.manage: scan the matching entries, then take the version found (if any) and the
   * scope found, `compile` by default. Returns the managed artifact; the Java method writes
   * the two fields in place.
   */
  method Manage(a: Artifact, dependents: seq<Artifact>) returns (r: Artifact)
    ensures r == Managed(a, dependents)
  {
    var version, scope := ScanEntries(Candidates(a, dependents));
    r := a;
    if version.Some? {
      r := r.(version := version);
    }
    if scope.None? {
      scope := Some("compile");
    }
    r := r.(scope := scope);
  }

  /**
   * After manage the scope is never null, it is the first non-null scope among the matching
   * entries, or `compile`; the version is the first non-null one, unchanged when no entry has
   * one; nothing else changes.
   */
  lemma ManagedFields(a: Artifact, dependents: seq<Artifact>)
    ensures var r := Managed(a, dependents);
      var cs := Candidates(a, dependents);
      var iv := FirstSet(cs, VersionOf);
      var isc := FirstSet(cs, ScopeOf);
      && r.scope.Some?
      && r.scope == (if isc < |cs| then cs[isc].scope else Some("compile"))
      && r.version == (if iv < |cs| then cs[iv].version else a.version)
      && r == a.(version := r.version, scope := r.scope)
  {
  }

  /** Filtering distributes over concatenation. */
  lemma {:induction false} MatchingAppend(a: Artifact, xs: seq<Artifact>, ys: seq<Artifact>)
    ensures Matching(a, xs + ys) == Matching(a, xs) + Matching(a, ys)
    decreases |xs|
  {
    if |xs| == 0 {
      assert xs + ys == ys;
    } else {
      assert (xs + ys)[1..] == xs[1..] + ys;
      MatchingAppend(a, xs[1..], ys);
    }
  }

  lemma {:induction false} EntriesAppend(h: seq<Artifact>, g: seq<Artifact>)
    ensures Entries(h + g) == Entries(h) + Entries(g)
    decreases |h|
  {
    if |h| == 0 {
      assert h + g == g;
    } else {
      assert (h + g)[1..] == h[1..] + g;
      EntriesAppend(h[1..], g);
    }
  }

  lemma LineageCons(d: Artifact, ds: seq<Artifact>)
    ensures Lineage([d] + ds) == Hierarchy(d) + Lineage(ds)
  {
    assert ([d] + ds)[1..] == ds;
  }

  /** The first dependent's entries come before every later dependent's. */
  lemma CandidatesCons(a: Artifact, d: Artifact, ds: seq<Artifact>)
    ensures Candidates(a, [d] + ds) == Candidates(a, [d]) + Candidates(a, ds)
  {
    LineageCons(d, ds);
    LineageCons(d, []);
    assert [d] + [] == [d];
    assert Hierarchy(d) + Lineage([]) == Hierarchy(d);
    EntriesAppend(Hierarchy(d), Lineage(ds));
    MatchingAppend(a, Entries(Hierarchy(d)), Entries(Lineage(ds)));
  }

  /**
   * Within one dependent the parent's hierarchy comes first, then the dependent's own
   * dependencies, then its own dependencyManagement.
   */
  lemma CandidatesRootFirst(a: Artifact, d: Artifact)
    requires d.parent.Some?
    ensures Candidates(a, [d]) ==
      Candidates(a, [d.parent.value]) + Matching(a, d.dependencies) + Matching(a, d.dependencyManagement)
  {
    var p := d.parent.value;
    LineageCons(d, []);
    LineageCons(p, []);
    assert [d] + [] == [d] && [p] + [] == [p];
    assert Lineage([d]) == Hierarchy(p) + [d];
    assert Lineage([p]) == Hierarchy(p);
    EntriesAppend(Hierarchy(p), [d]);
    assert Entries([d]) == d.dependencies + d.dependencyManagement + Entries([d][1..]);
    assert Entries([d]) == d.dependencies + d.dependencyManagement;
    MatchingAppend(a, Entries(Hierarchy(p)), d.dependencies + d.dependencyManagement);
    MatchingAppend(a, d.dependencies, d.dependencyManagement);
  }

  /** A version the first dependent's hierarchy supplies wins over any later dependent's. */
  lemma FirstDependentWins(a: Artifact, d: Artifact, ds: seq<Artifact>)
    requires FirstNonNull(Candidates(a, [d]), VersionOf).Some?
    ensures Managed(a, [d] + ds).version == FirstNonNull(Candidates(a, [d]), VersionOf)
  {
    CandidatesCons(a, d, ds);
    FirstNonNullAppend(Candidates(a, [d]), Candidates(a, ds), VersionOf);
  }

  /** The candidates do not depend on version or scope, the fields manage writes. */
  lemma {:induction false} MatchingIgnoresVersionAndScope(a: Artifact, xs: seq<Artifact>, v: Option<string>, s: Option<string>)
    ensures Matching(a.(version := v, scope := s), xs) == Matching(a, xs)
    decreases |xs|
  {
    if |xs| > 0 {
      MatchingIgnoresVersionAndScope(a, xs[1..], v, s);
    }
  }

  /** Managing twice against the same dependents changes nothing more. */
  lemma ManageIdempotent(a: Artifact, dependents: seq<Artifact>)
    ensures Managed(Managed(a, dependents), dependents) == Managed(a, dependents)
  {
    var r := Managed(a, dependents);
    MatchingIgnoresVersionAndScope(a, Entries(Lineage(dependents)), r.version, r.scope);
    assert r == a.(version := r.version, scope := r.scope);
  }

  // ---------------------------------------------------------------------------
  // dependencies(filter)

  /** The artifact itself, when the filter accepts it. */
  function Self(a: Artifact, accept: Artifact -> bool): seq<Artifact> {
    if accept(a) then [a] else []
  }

  /**
   * dependencies(filter): the artifact when accepted, then everything its parent's projection
   * holds (the parent is not tested), then the projection of every accepted dependency, all
   * collected in one LinkedHashSet.
   */
  function Dependencies(a: Artifact, accept: Artifact -> bool): seq<Artifact>
    decreases a, |a.dependencies| + 2
  {
    ChildDependencies(a, accept, Base(a, accept), |a.dependencies|)
  }

  /** The set after the artifact itself and its parent were added. */
  function Base(a: Artifact, accept: Artifact -> bool): seq<Artifact>
    decreases a, 0
  {
    AddAll(Self(a, accept), if a.parent.Some? then Dependencies(a.parent.value, accept) else [], Id)
  }

  /** The loop over the first n dependencies, starting from the set `start`. */
  function ChildDependencies(a: Artifact, accept: Artifact -> bool, start: seq<Artifact>, n: nat): seq<Artifact>
    requires n <= |a.dependencies|
    decreases a, n + 1
  {
    if n == 0 then start
    else
      var acc := ChildDependencies(a, accept, start, n - 1);
      var c := a.dependencies[n - 1];
      if accept(c) then AddAll(acc, Dependencies(c, accept), Id) else acc
  }

  /**
   * The preorder walk the projection follows, duplicates kept: the artifact when accepted,
   * its parent's walk, then the walk of every accepted dependency.
   */
  function Walk(a: Artifact, accept: Artifact -> bool): seq<Artifact>
    decreases a, |a.dependencies| + 1
  {
    Self(a, accept) + (if a.parent.Some? then Walk(a.parent.value, accept) else []) + WalkChildren(a, accept, |a.dependencies|)
  }

  function WalkChildren(a: Artifact, accept: Artifact -> bool, n: nat): seq<Artifact>
    requires n <= |a.dependencies|
    decreases a, n
  {
    if n == 0 then []
    else
      var c := a.dependencies[n - 1];
      WalkChildren(a, accept, n - 1) + (if accept(c) then Walk(c, accept) else [])
  }

  /** The children loop adds what a walk of the accepted children would. */
  lemma {:induction false} ChildDependenciesIsAddAll(a: Artifact, accept: Artifact -> bool, start: seq<Artifact>, n: nat)
    requires n <= |a.dependencies|
    ensures ChildDependencies(a, accept, start, n) == AddAll(start, WalkChildren(a, accept, n), Id)
    decreases a, n
  {
    if n > 0 {
      ChildDependenciesIsAddAll(a, accept, start, n - 1);
      ChildStepIsAddAll(a, accept, start, n);
    }
  }

  /** One turn of the children loop adds the walk of the child when the filter accepts it. */
  lemma ChildStepIsAddAll(a: Artifact, accept: Artifact -> bool, start: seq<Artifact>, n: nat)
    requires 0 < n <= |a.dependencies|
    requires ChildDependencies(a, accept, start, n - 1) == AddAll(start, WalkChildren(a, accept, n - 1), Id)
    ensures ChildDependencies(a, accept, start, n) == AddAll(start, WalkChildren(a, accept, n), Id)
    decreases a, n, 0
  {
    var c := a.dependencies[n - 1];
    var prev := WalkChildren(a, accept, n - 1);
    if accept(c) {
      var sub := Walk(c, accept);
      DependenciesIsDedupedWalk(c, accept);
      AddAllDedupedStep(ChildDependencies(a, accept, start, n - 1), start, prev, sub, Id);
      assert WalkChildren(a, accept, n) == prev + sub;
    } else {
      assert WalkChildren(a, accept, n) == prev + [];
      assert prev + [] == prev;
    }
  }

  /** dependencies(filter) is the preorder walk with every element after the first equal one dropped. */
  lemma {:induction false} DependenciesIsDedupedWalk(a: Artifact, accept: Artifact -> bool)
    ensures Dependencies(a, accept) == AddAll([], Walk(a, accept), Id)
    decreases a, |a.dependencies| + 1
  {
    var self := Self(a, accept);
    var up := if a.parent.Some? then Walk(a.parent.value, accept) else [];
    var down := WalkChildren(a, accept, |a.dependencies|);
    assert AddAll([], self, Id) == self by {
      if accept(a) { assert AddAll([], [a], Id) == Add([], a, Id); }
    }
    if a.parent.Some? {
      DependenciesIsDedupedWalk(a.parent.value, accept);
      AddAllOfAddAll(self, up, Id);
    } else {
      assert AddAll(self, [], Id) == self;
    }
    AddAllAppend([], self, up, Id);
    ChildDependenciesIsAddAll(a, accept, Base(a, accept), |a.dependencies|);
    AddAllAppend([], self + up, down, Id);
  }

  /** Every element of the walk is accepted by the filter. */
  lemma {:induction false} WalkAccepted(a: Artifact, accept: Artifact -> bool)
    ensures forall i :: 0 <= i < |Walk(a, accept)| ==> accept(Walk(a, accept)[i])
    decreases a, |a.dependencies| + 1
  {
    if a.parent.Some? {
      WalkAccepted(a.parent.value, accept);
    }
    WalkChildrenAccepted(a, accept, |a.dependencies|);
  }

  lemma {:induction false} WalkChildrenAccepted(a: Artifact, accept: Artifact -> bool, n: nat)
    requires n <= |a.dependencies|
    ensures forall i :: 0 <= i < |WalkChildren(a, accept, n)| ==> accept(WalkChildren(a, accept, n)[i])
    decreases a, n
  {
    if n > 0 {
      WalkChildrenAccepted(a, accept, n - 1);
      var c := a.dependencies[n - 1];
      if accept(c) {
        WalkAccepted(c, accept);
      }
    }
  }

  /**
   * What dependencies(filter) returns: only elements the filter accepts, no two of them
   * equal, each the first occurrence of its identity in the preorder walk, in walk order,
   * and every identity the walk reaches.
   */
  lemma DependenciesSpec(a: Artifact, accept: Artifact -> bool)
    ensures var r := Dependencies(a, accept);
      var w := Walk(a, accept);
      && NoDup(r, Id)
      && Keys(r, Id) == Keys(w, Id)
      && (forall i :: 0 <= i < |r| ==> accept(r[i]))
      && (forall i :: 0 <= i < |r| ==> Id(r[i]) in Keys(w, Id) && r[i] == w[FirstIndex(w, Id(r[i]), Id)])
      && (forall i, j :: 0 <= i < j < |r| ==> FirstIndex(w, Id(r[i]), Id) < FirstIndex(w, Id(r[j]), Id))
  {
    DependenciesIsDedupedWalk(a, accept);
    WalkAccepted(a, accept);
    DedupedSpec(Walk(a, accept), Id, accept);
  }

  /** An artifact the filter accepts comes first in its own projection. */
  lemma AcceptedSelfFirst(a: Artifact, accept: Artifact -> bool)
    requires accept(a)
    ensures |Dependencies(a, accept)| > 0 && Dependencies(a, accept)[0] == a
  {
    DependenciesIsDedupedWalk(a, accept);
    var w := Walk(a, accept);
    assert w[0] == a;
    AddAllHead(w, Id);
  }

  /**
   * The parent is projected whether or not the filter accepts it, and what the artifact and
   * its parent contribute comes before anything from the dependencies.
   */
  lemma ParentBeforeChildren(a: Artifact, accept: Artifact -> bool)
    requires a.parent.Some?
    ensures Keys(Dependencies(a.parent.value, accept), Id) <= Keys(Dependencies(a, accept), Id)
    ensures var base := AddAll(Self(a, accept), Dependencies(a.parent.value, accept), Id);
      |base| <= |Dependencies(a, accept)| && Dependencies(a, accept)[..|base|] == base
  {
    var base := Base(a, accept);
    ChildDependenciesIsAddAll(a, accept, base, |a.dependencies|);
    AddAllKeys(Self(a, accept), Dependencies(a.parent.value, accept), Id);
    AddAllKeys(base, WalkChildren(a, accept, |a.dependencies|), Id);
  }

  /** Removing a dependency the filter rejects does not change what the children loop collects. */
  lemma {:induction false} RejectedChildIgnored(a: Artifact, b: Artifact, accept: Artifact -> bool, start: seq<Artifact>, i: nat, n: nat)
    requires i < |a.dependencies| && !accept(a.dependencies[i])
    requires b.dependencies == a.dependencies[..i] + a.dependencies[i + 1..]
    requires i < n <= |a.dependencies|
    ensures ChildDependencies(b, accept, start, n - 1) == ChildDependencies(a, accept, start, n)
    decreases n
  {
    if n == i + 1 {
      SamePrefixSameChildren(a, b, accept, start, i);
    } else {
      RejectedChildIgnored(a, b, accept, start, i, n - 1);
      assert b.dependencies[n - 2] == a.dependencies[n - 1];
    }
  }

  /** Two artifacts with the same first n dependencies collect the same set over them. */
  lemma {:induction false} SamePrefixSameChildren(a: Artifact, b: Artifact, accept: Artifact -> bool, start: seq<Artifact>, n: nat)
    requires n <= |a.dependencies| && n <= |b.dependencies|
    requires a.dependencies[..n] == b.dependencies[..n]
    ensures ChildDependencies(b, accept, start, n) == ChildDependencies(a, accept, start, n)
    decreases n
  {
    if n > 0 {
      assert a.dependencies[..n - 1] == a.dependencies[..n][..n - 1];
      assert b.dependencies[..n - 1] == b.dependencies[..n][..n - 1];
      SamePrefixSameChildren(a, b, accept, start, n - 1);
      assert a.dependencies[n - 1] == a.dependencies[..n][n - 1];
      assert b.dependencies[n - 1] == b.dependencies[..n][n - 1];
    }
  }
}
