/**
 * io.github.arlol.mvnx.Dependency and Project: a dependency names a coordinate and points to
 * the project (the parsed POM) it resolves to; the project points to its parent dependency and
 * its own dependencies. A dependency whose project is null makes dependencies(filter) throw a
 * NullPointerException on `project.parent`.
 */
module MvnxDependency {
  import opened Wrappers
  import opened JavaLang
  import opened LinkedSets

  /** depType is the `type` field. */
  datatype Dependency = Dependency(
    groupId: Option<string>,
    artifactId: Option<string>,
    version: Option<string>,
    depType: Option<string>,
    classifier: Option<string>,
    scope: Option<string>,
    optional: bool,
    project: Option<Project>)

  datatype Project = Project(
    parent: Option<Dependency>,
    groupId: Option<string>,
    artifactId: Option<string>,
    version: Option<string>,
    packaging: Option<string>,
    dependencies: seq<Dependency>,
    properties: map<string, string>)

  // ---------------------------------------------------------------------------
  // Identity

  datatype Identity = Identity(artifactId: Option<string>, classifier: Option<string>, groupId: Option<string>,
                               depType: Option<string>, version: Option<string>)

  function Id(d: Dependency): Identity {
    Identity(d.artifactId, d.classifier, d.groupId, d.depType, d.version)
  }

  /** equalsArtifact: same groupId, artifactId, classifier and type, whatever the version. */
  predicate EqualsArtifact(d: Dependency, other: Dependency) {
    ObjectsEquals(d.artifactId, other.artifactId) && ObjectsEquals(d.classifier, other.classifier)
    && ObjectsEquals(d.groupId, other.groupId) && ObjectsEquals(d.depType, other.depType)
  }

  /** equals(Object): false for null and another class, otherwise the five fields compared. */
  predicate Equals(d: Dependency, obj: Ref<Dependency>) {
    match obj
    case Null => false
    case OtherClass => false
    case Instance(other) =>
      ObjectsEquals(d.artifactId, other.artifactId) && ObjectsEquals(d.classifier, other.classifier)
      && ObjectsEquals(d.groupId, other.groupId) && ObjectsEquals(d.depType, other.depType)
      && ObjectsEquals(d.version, other.version)
  }

  /** hashCode: Objects.hash(artifactId, classifier, groupId, type, version). */
  function HashCode(d: Dependency): (r: int)
    ensures -TWO_31 <= r < TWO_31
  {
    ObjectsHash([d.artifactId, d.classifier, d.groupId, d.depType, d.version])
  }

  /** equals is equalsArtifact plus an equal version, and holds exactly between equal identities. */
  lemma EqualsIsEqualsArtifactAndVersion(d: Dependency, e: Dependency)
    ensures Equals(d, Instance(e)) <==> EqualsArtifact(d, e) && d.version == e.version
    ensures Equals(d, Instance(e)) <==> Id(d) == Id(e)
  {
  }

  /** equalsArtifact ignores the version. */
  lemma EqualsArtifactIgnoresVersion(d: Dependency, e: Dependency, v: Option<string>)
    ensures EqualsArtifact(d, e) <==> EqualsArtifact(d, e.(version := v))
  {
  }

  /** Equal dependencies have equal hash codes. */
  lemma HashCodeConsistent(d: Dependency, e: Dependency)
    requires Equals(d, Instance(e))
    ensures HashCode(d) == HashCode(e)
  {
  }

  // ---------------------------------------------------------------------------
  // dependencies(filter)

  function Self(d: Dependency, accept: Dependency -> bool): seq<Dependency> {
    if accept(d) then [d] else []
  }

  /**
   * dependencies(filter): the dependency when accepted, then the projection of its project's
   * parent (not tested), then that of every accepted dependency of its project. A null
   * project anywhere on the way throws.
   */
  function Dependencies(d: Dependency, accept: Dependency -> bool): (r: Result<seq<Dependency>, Exception>)
    ensures r.Failure? ==> r.error == NullPointer
    decreases d, 2
  {
    if d.project.None? then Failure(NullPointer)
    else
      var p := d.project.value;
      var up := if p.parent.Some? then Dependencies(p.parent.value, accept) else Success([]);
      if up.Failure? then up
      else ChildDependencies(d, accept, AddAll(Self(d, accept), up.value, Id), |p.dependencies|)
  }

  /** The loop over the first n dependencies of the project, starting from the set `start`. */
  function ChildDependencies(d: Dependency, accept: Dependency -> bool, start: seq<Dependency>, n: nat)
    : (r: Result<seq<Dependency>, Exception>)
    requires d.project.Some? && n <= |d.project.value.dependencies|
    ensures r.Failure? ==> r.error == NullPointer
    decreases d, 1, n
  {
    if n == 0 then Success(start)
    else
      var acc := ChildDependencies(d, accept, start, n - 1);
      var c := d.project.value.dependencies[n - 1];
      if acc.Failure? || !accept(c) then acc
      else
        var sub := Dependencies(c, accept);
        if sub.Failure? then sub else Success(AddAll(acc.value, sub.value, Id))
  }

  /** The preorder walk with duplicates kept; it fails where the projection does. */
  function Walk(d: Dependency, accept: Dependency -> bool): Result<seq<Dependency>, Exception>
    decreases d, 2
  {
    if d.project.None? then Failure(NullPointer)
    else
      var p := d.project.value;
      var up := if p.parent.Some? then Walk(p.parent.value, accept) else Success([]);
      var down := WalkChildren(d, accept, |p.dependencies|);
      if up.Failure? then up
      else if down.Failure? then down
      else Success(Self(d, accept) + up.value + down.value)
  }

  function WalkChildren(d: Dependency, accept: Dependency -> bool, n: nat): Result<seq<Dependency>, Exception>
    requires d.project.Some? && n <= |d.project.value.dependencies|
    decreases d, 1, n
  {
    if n == 0 then Success([])
    else
      var prev := WalkChildren(d, accept, n - 1);
      var c := d.project.value.dependencies[n - 1];
      if prev.Failure? || !accept(c) then prev
      else
        var sub := Walk(c, accept);
        if sub.Failure? then sub else Success(prev.value + sub.value)
  }

  /** A walk's failure, or the set that adding the walked dependencies to start gives. */
  function Deduped(start: seq<Dependency>, w: Result<seq<Dependency>, Exception>): Result<seq<Dependency>, Exception> {
    if w.Failure? then w else Success(AddAll(start, w.value, Id))
  }

  /** The children loop fails where the walk of the accepted children does, and otherwise adds what it visits. */
  lemma {:induction false} ChildDependenciesIsAddAll(d: Dependency, accept: Dependency -> bool, start: seq<Dependency>, n: nat)
    requires d.project.Some? && n <= |d.project.value.dependencies|
    ensures ChildDependencies(d, accept, start, n) == Deduped(start, WalkChildren(d, accept, n))
    decreases d, 1, n
  {
    if n > 0 {
      var c := d.project.value.dependencies[n - 1];
      ChildDependenciesIsAddAll(d, accept, start, n - 1);
      var prev := WalkChildren(d, accept, n - 1);
      if prev.Success? && accept(c) {
        DependenciesIsDedupedWalk(c, accept);
        var sub := Walk(c, accept);
        if sub.Success? {
          AddAllDedupedStep(ChildDependencies(d, accept, start, n - 1).value, start, prev.value, sub.value, Id);
          assert WalkChildren(d, accept, n) == Success(prev.value + sub.value);
        } else {
          assert WalkChildren(d, accept, n) == sub;
        }
      } else {
        assert WalkChildren(d, accept, n) == prev;
      }
    }
  }

  /** dependencies(filter) fails exactly when the walk meets a null project, and otherwise is the walk deduplicated. */
  lemma {:induction false} DependenciesIsDedupedWalk(d: Dependency, accept: Dependency -> bool)
    ensures Dependencies(d, accept) == Deduped([], Walk(d, accept))
    decreases d, 2
  {
    if d.project.Some? {
      var p := d.project.value;
      var self := Self(d, accept);
      assert AddAll([], self, Id) == self by {
        if accept(d) { assert AddAll([], [d], Id) == Add([], d, Id); }
      }
      var up := if p.parent.Some? then Walk(p.parent.value, accept) else Success([]);
      if p.parent.Some? {
        DependenciesIsDedupedWalk(p.parent.value, accept);
      }
      if up.Success? {
        var base := AddAll(self, up.value, Id);
        if p.parent.Some? {
          AddAllOfAddAll(self, up.value, Id);
        } else {
          assert base == self;
        }
        AddAllAppend([], self, up.value, Id);
        ChildDependenciesIsAddAll(d, accept, base, |p.dependencies|);
        var down := WalkChildren(d, accept, |p.dependencies|);
        if down.Success? {
          AddAllAppend([], self + up.value, down.value, Id);
        }
      }
    }
  }

  lemma {:induction false} WalkAccepted(d: Dependency, accept: Dependency -> bool)
    ensures Walk(d, accept).Success? ==>
      forall i :: 0 <= i < |Walk(d, accept).value| ==> accept(Walk(d, accept).value[i])
    decreases d, 2
  {
    if d.project.Some? {
      var p := d.project.value;
      if p.parent.Some? {
        WalkAccepted(p.parent.value, accept);
      }
      WalkChildrenAccepted(d, accept, |p.dependencies|);
    }
  }

  lemma {:induction false} WalkChildrenAccepted(d: Dependency, accept: Dependency -> bool, n: nat)
    requires d.project.Some? && n <= |d.project.value.dependencies|
    ensures WalkChildren(d, accept, n).Success? ==>
      forall i :: 0 <= i < |WalkChildren(d, accept, n).value| ==> accept(WalkChildren(d, accept, n).value[i])
    decreases d, 1, n
  {
    if n > 0 {
      WalkChildrenAccepted(d, accept, n - 1);
      var c := d.project.value.dependencies[n - 1];
      if accept(c) {
        WalkAccepted(c, accept);
      }
    }
  }

  /**
   * A successful dependencies(filter) holds only accepted dependencies, no two of them equal,
   * each the first occurrence of its identity in the walk, in walk order.
   */
  lemma DependenciesSpec(d: Dependency, accept: Dependency -> bool)
    requires Dependencies(d, accept).Success?
    ensures Walk(d, accept).Success?
    ensures var r := Dependencies(d, accept).value;
      var w := Walk(d, accept).value;
      && NoDup(r, Id)
      && Keys(r, Id) == Keys(w, Id)
      && (forall i :: 0 <= i < |r| ==> accept(r[i]))
      && (forall i :: 0 <= i < |r| ==> Id(r[i]) in Keys(w, Id) && r[i] == w[FirstIndex(w, Id(r[i]), Id)])
      && (forall i, j :: 0 <= i < j < |r| ==> FirstIndex(w, Id(r[i]), Id) < FirstIndex(w, Id(r[j]), Id))
  {
    DependenciesIsDedupedWalk(d, accept);
    WalkAccepted(d, accept);
    DedupedSpec(Walk(d, accept).value, Id, accept);
  }

  /** A dependency the filter accepts comes first in its own projection. */
  lemma AcceptedSelfFirst(d: Dependency, accept: Dependency -> bool)
    requires accept(d) && Dependencies(d, accept).Success?
    ensures |Dependencies(d, accept).value| > 0 && Dependencies(d, accept).value[0] == d
  {
    DependenciesIsDedupedWalk(d, accept);
    var w := Walk(d, accept).value;
    assert w[0] == d;
    AddAllHead(w, Id);
  }

  /** A dependency without a project cannot be projected. */
  lemma NullProjectThrows(d: Dependency, accept: Dependency -> bool)
    requires d.project.None?
    ensures Dependencies(d, accept) == Failure(NullPointer)
  {
  }

  /**
   * The project's parent is projected whether or not the filter accepts it: its failure is
   * the dependency's failure, and what it collects is collected.
   */
  lemma ParentUnconditional(d: Dependency, accept: Dependency -> bool)
    requires d.project.Some? && d.project.value.parent.Some?
    ensures var up := Dependencies(d.project.value.parent.value, accept);
      (up.Failure? ==> Dependencies(d, accept).Failure?) &&
      (Dependencies(d, accept).Success? ==> up.Success? && Keys(up.value, Id) <= Keys(Dependencies(d, accept).value, Id))
  {
    var p := d.project.value;
    var up := Dependencies(p.parent.value, accept);
    if up.Success? {
      var base := AddAll(Self(d, accept), up.value, Id);
      ChildDependenciesIsAddAll(d, accept, base, |p.dependencies|);
      AddAllKeys(Self(d, accept), up.value, Id);
      var down := WalkChildren(d, accept, |p.dependencies|);
      if down.Success? {
        AddAllKeys(base, down.value, Id);
      }
    }
  }

  /** A rejected dependency is never descended into, so even one without a project does no harm. */
  lemma {:induction false} RejectedChildIgnored(d: Dependency, e: Dependency, accept: Dependency -> bool,
                                                start: seq<Dependency>, i: nat, n: nat)
    requires d.project.Some? && e.project.Some?
    requires i < |d.project.value.dependencies| && !accept(d.project.value.dependencies[i])
    requires e.project.value.dependencies == d.project.value.dependencies[..i] + d.project.value.dependencies[i + 1..]
    requires i < n <= |d.project.value.dependencies|
    ensures ChildDependencies(e, accept, start, n - 1) == ChildDependencies(d, accept, start, n)
    decreases n
  {
    var ds, es := d.project.value.dependencies, e.project.value.dependencies;
    if n == i + 1 {
      assert ds[..i] == es[..i];
      SamePrefixSameChildren(d, e, accept, start, i);
      assert ChildDependencies(d, accept, start, n) == ChildDependencies(d, accept, start, i);
    } else {
      RejectedChildIgnored(d, e, accept, start, i, n - 1);
      ChildStepAgrees(d, e, accept, start, n - 1, n - 2);
    }
  }

  /** One turn of the children loop over equal children from equal sets gives equal sets. */
  lemma ChildStepAgrees(d: Dependency, e: Dependency, accept: Dependency -> bool, start: seq<Dependency>, n: nat, m: nat)
    requires d.project.Some? && e.project.Some?
    requires n < |d.project.value.dependencies| && m < |e.project.value.dependencies|
    requires d.project.value.dependencies[n] == e.project.value.dependencies[m]
    requires ChildDependencies(d, accept, start, n) == ChildDependencies(e, accept, start, m)
    ensures ChildDependencies(d, accept, start, n + 1) == ChildDependencies(e, accept, start, m + 1)
  {
  }

  lemma {:induction false} SamePrefixSameChildren(d: Dependency, e: Dependency, accept: Dependency -> bool,
                                                  start: seq<Dependency>, n: nat)
    requires d.project.Some? && e.project.Some?
    requires n <= |d.project.value.dependencies| && n <= |e.project.value.dependencies|
    requires d.project.value.dependencies[..n] == e.project.value.dependencies[..n]
    ensures ChildDependencies(e, accept, start, n) == ChildDependencies(d, accept, start, n)
    decreases n
  {
    if n > 0 {
      var ds, es := d.project.value.dependencies, e.project.value.dependencies;
      assert ds[..n - 1] == ds[..n][..n - 1];
      assert es[..n - 1] == es[..n][..n - 1];
      SamePrefixSameChildren(d, e, accept, start, n - 1);
      assert ds[n - 1] == ds[..n][n - 1];
      assert es[n - 1] == es[..n][n - 1];
    }
  }
}
