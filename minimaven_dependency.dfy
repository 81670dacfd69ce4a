/**
 * io.github.arlol.minimaven.Dependency: a coordinate with a packaging, a classifier and a
 * scope. Its equals and hashCode look at every field but the version, so two entries that
 * differ only in version are the same element of a set, while a change of scope makes a
 * different one.
 */
module MinimavenDependency {
  import opened Wrappers
  import opened JavaLang

  datatype Dependency = Dependency(
    groupId: Option<string>,
    artifactId: Option<string>,
    version: Option<string>,
    packaging: Option<string>,
    classifier: Option<string>,
    scope: Option<string>)

  /** The fields equals compares, in the order hashCode hashes them. */
  datatype Identity = Identity(artifactId: Option<string>, classifier: Option<string>, groupId: Option<string>,
                               packaging: Option<string>, scope: Option<string>)

  function Id(d: Dependency): Identity {
    Identity(d.artifactId, d.classifier, d.groupId, d.packaging, d.scope)
  }

  /** equals(Object): false for null and another class, otherwise five fields compared. */
  predicate Equals(d: Dependency, obj: Ref<Dependency>) {
    match obj
    case Null => false
    case OtherClass => false
    case Instance(other) =>
      ObjectsEquals(d.artifactId, other.artifactId) && ObjectsEquals(d.classifier, other.classifier)
      && ObjectsEquals(d.groupId, other.groupId) && ObjectsEquals(d.packaging, other.packaging)
      && ObjectsEquals(d.scope, other.scope)
  }

  /** hashCode: Objects.hash(artifactId, classifier, groupId, packaging, scope). */
  function HashCode(d: Dependency): (r: int)
    ensures -TWO_31 <= r < TWO_31
  {
    ObjectsHash([d.artifactId, d.classifier, d.groupId, d.packaging, d.scope])
  }

  /** equals holds exactly between dependencies with the same identity. */
  lemma EqualsIffSameId(d: Dependency, e: Dependency)
    ensures Equals(d, Instance(e)) <==> Id(d) == Id(e)
  {
  }

  /** The version takes no part: a dependency equals itself with any other version. */
  lemma EqualsIgnoresVersion(d: Dependency, v: Option<string>)
    ensures Equals(d, Instance(d.(version := v)))
  {
  }

  /** The scope does: a dependency never equals itself with a different scope. */
  lemma EqualsSeesScope(d: Dependency, s: Option<string>)
    ensures Equals(d, Instance(d.(scope := s))) <==> s == d.scope
  {
  }

  /** equals is reflexive, symmetric and transitive, and false for null or another class. */
  lemma EqualsEquivalence(d: Dependency, e: Dependency, f: Dependency)
    ensures Equals(d, Instance(d))
    ensures Equals(d, Instance(e)) ==> Equals(e, Instance(d))
    ensures Equals(d, Instance(e)) && Equals(e, Instance(f)) ==> Equals(d, Instance(f))
    ensures !Equals(d, Null) && !Equals(d, OtherClass)
  {
  }

  /** hashCode hashes the fields equals compares, so equal dependencies hash alike. */
  lemma HashCodeConsistent(d: Dependency, e: Dependency)
    requires Equals(d, Instance(e))
    ensures HashCode(d) == HashCode(e)
  {
  }
}
