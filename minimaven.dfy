/**
 * io.github.arlol.minimaven.ClassLoaderExperiment: the first resolver of the repository.
 * project(...) reads a POM into a Project, filling version-less dependencies from the
 * dependencyManagement of the project and its parents; projectDependencies walks the parent
 * and the dependencies of a project into a LinkedHashSet where an element added again is
 * moved to the end; resolveDependencies keeps the compile-scoped entries as `g:a:v` strings.
 *
 * The local repository and the remote one are a map from POM path to the parsed POM; a path
 * the map lacks is a failed download. Every project(...) call builds fresh objects, so the
 * Dependency objects the source updates in place are modelled as values passed on.
 */
module Minimaven {
  import opened Wrappers
  import opened JavaLang
  import opened JavaPaths
  import opened LinkedSets
  import opened Templating
  import opened Layout
  import opened MinimavenDependency

  /**
   * A parsed project. The parent is a Project, as project(...) assigns it; management is the
   * dependency list of the dependencyManagement object, None when the POM has none.
   */
  datatype Project = Project(
    parent: Option<Project>,
    groupId: string,
    artifactId: string,
    version: string,
    management: Option<seq<Dependency>>,
    dependencies: seq<Dependency>,
    properties: map<string, string>)

  // ---------------------------------------------------------------------------
  // manageDependency

  /** The stream filter of manageDependency: groupId and artifactId of the entry equal the dependency's. */
  predicate Matches(entry: Dependency, d: Dependency) {
    entry.groupId.Some? && entry.groupId == d.groupId && entry.artifactId.Some? && entry.artifactId == d.artifactId
  }

  /** The filter throws: the entry's groupId is null, or it matched and the artifactId is null. */
  predicate Throws(entry: Dependency, d: Dependency) {
    entry.groupId.None? || (entry.groupId == d.groupId && entry.artifactId.None?)
  }

  /** Where findFirst stops: the first entry that matches or throws, or the end. */
  function FirstDecisive(entries: seq<Dependency>, d: Dependency): (i: nat)
    ensures i <= |entries|
    ensures forall j :: 0 <= j < i ==> !Matches(entries[j], d) && !Throws(entries[j], d)
    ensures i < |entries| ==> Matches(entries[i], d) || Throws(entries[i], d)
    decreases |entries|
  {
    if |entries| == 0 || Matches(entries[0], d) || Throws(entries[0], d) then 0
    else 1 + FirstDecisive(entries[1..], d)
  }

  /** filter(...).findFirst() over one project's management entries. */
  function FindManaged(entries: seq<Dependency>, d: Dependency): (r: Result<Option<Dependency>, Exception>)
    ensures r.Failure? ==> r.error == NullPointer
    ensures r.Success? && r.value.Some? ==> Matches(r.value.value, d)
  {
    var i := FirstDecisive(entries, d);
    if i == |entries| then Success(None)
    else if Throws(entries[i], d) then Failure(NullPointer)
    else Success(Some(entries[i]))
  }

  /** ifPresent: a null version or scope is taken from the managed entry, a set one is kept. */
  function Fill(d: Dependency, managed: Option<Dependency>): Dependency {
    if managed.None? then d
    else d.(version := if d.version.None? then managed.value.version else d.version,
            scope := if d.scope.None? then managed.value.scope else d.scope)
  }

  /** What manageDependency leaves in the dependency, searching the project and then its parents. */
  function ManagedBy(search: Option<Project>, d: Dependency): (r: Result<Dependency, Exception>)
    ensures r.Failure? ==> r.error == NullPointer
    decreases search
  {
    if search.None? then Success(d)
    else
      var p := search.value;
      var found := if p.management.Some? then FindManaged(p.management.value, d) else Success(None);
      if found.Failure? then Failure(found.error) else ManagedBy(p.parent, Fill(d, found.value))
  }

  /** manageDependency(project, dependency): the while loop over the parent chain. */
  method ManageDependency(project: Project, dependency: Dependency) returns (r: Result<Dependency, Exception>)
    ensures r == ManagedBy(Some(project), dependency)
  {
    var search := Some(project);
    var d := dependency;
    while search.Some?
      invariant ManagedBy(search, d) == ManagedBy(Some(project), dependency)
      decreases search
    {
      var p := search.value;
      if p.management.Some? {
        var found := FindManaged(p.management.value, d);
        if found.Failure? {
          return Failure(found.error);
        }
        if found.value.Some? {
          var md := found.value.value;
          if d.version.None? {
            d := d.(version := md.version);
          }
          if d.scope.None? {
            d := d.(scope := md.scope);
          }
        }
      }
      search := p.parent;
    }
    return Success(d);
  }

  /** manageDependency never overwrites a set version or scope, and changes no other field. */
  lemma {:induction false} ManagedKeepsWhatIsSet(search: Option<Project>, d: Dependency)
    requires ManagedBy(search, d).Success?
    ensures var e := ManagedBy(search, d).value;
      (d.version.Some? ==> e.version == d.version) && (d.scope.Some? ==> e.scope == d.scope)
      && e.(version := d.version, scope := d.scope) == d
    decreases search
  {
    if search.Some? {
      var p := search.value;
      var found := if p.management.Some? then FindManaged(p.management.value, d) else Success(None);
      ManagedKeepsWhatIsSet(p.parent, Fill(d, found.value));
    }
  }

  /**
   * The nearest project wins: a set version (or scope) of the first matching entry of the
   * project itself is what a dependency without one ends up with, whatever the parents manage.
   */
  lemma NearestProjectWins(p: Project, d: Dependency, md: Dependency)
    requires p.management.Some? && FindManaged(p.management.value, d) == Success(Some(md))
    ensures ManagedBy(Some(p), d) == ManagedBy(p.parent, Fill(d, Some(md)))
    ensures ManagedBy(Some(p), d).Success? && d.version.None? && md.version.Some? ==>
      ManagedBy(Some(p), d).value.version == md.version
    ensures ManagedBy(Some(p), d).Success? && d.scope.None? && md.scope.Some? ==>
      ManagedBy(Some(p), d).value.scope == md.scope
  {
    if ManagedBy(p.parent, Fill(d, Some(md))).Success? {
      ManagedKeepsWhatIsSet(p.parent, Fill(d, Some(md)));
    }
  }

  /** Only groupId and artifactId are matched on: packaging and classifier make no difference. */
  lemma {:induction false} ManagedIgnoresPackagingAndClassifier(search: Option<Project>, d: Dependency,
                                                                 packaging: Option<string>, classifier: Option<string>)
    ensures var e := d.(packaging := packaging, classifier := classifier);
      ManagedBy(search, e).Success? == ManagedBy(search, d).Success? &&
      (ManagedBy(search, d).Success? ==>
        ManagedBy(search, e).value == ManagedBy(search, d).value.(packaging := packaging, classifier := classifier))
    decreases search
  {
    if search.Some? {
      var p := search.value;
      var e := d.(packaging := packaging, classifier := classifier);
      if p.management.Some? {
        FindManagedIgnoresPackagingAndClassifier(p.management.value, d, packaging, classifier);
      }
      var found := if p.management.Some? then FindManaged(p.management.value, d) else Success(None);
      if found.Success? {
        assert Fill(e, found.value) == Fill(d, found.value).(packaging := packaging, classifier := classifier);
        ManagedIgnoresPackagingAndClassifier(p.parent, Fill(d, found.value), packaging, classifier);
      }
    }
  }

  lemma {:induction false} FindManagedIgnoresPackagingAndClassifier(entries: seq<Dependency>, d: Dependency,
                                                                     packaging: Option<string>, classifier: Option<string>)
    ensures FindManaged(entries, d.(packaging := packaging, classifier := classifier)) == FindManaged(entries, d)
    decreases |entries|
  {
    var e := d.(packaging := packaging, classifier := classifier);
    if |entries| > 0 && !Matches(entries[0], d) && !Throws(entries[0], d) {
      FindManagedIgnoresPackagingAndClassifier(entries[1..], d, packaging, classifier);
      assert FirstDecisive(entries, e) == 1 + FirstDecisive(entries[1..], e);
      assert FirstDecisive(entries, d) == 1 + FirstDecisive(entries[1..], d);
    }
  }

  /** A project chain none of whose entries matches or throws leaves the dependency as it is. */
  lemma {:induction false} UnmanagedUnchanged(search: Option<Project>, d: Dependency)
    requires forall p :: InChain(p, search) && p.management.Some? ==>
      forall i :: 0 <= i < |p.management.value| ==> !Matches(p.management.value[i], d) && !Throws(p.management.value[i], d)
    ensures ManagedBy(search, d) == Success(d)
    decreases search
  {
    if search.Some? {
      var p := search.value;
      if p.management.Some? {
        assert FirstDecisive(p.management.value, d) == |p.management.value|;
      }
      forall q | InChain(q, p.parent) ensures InChain(q, search) {
        assert InChain(q, search);
      }
      UnmanagedUnchanged(p.parent, d);
    }
  }

  /** The project searched and all its ancestors. */
  predicate InChain(p: Project, search: Option<Project>)
    decreases search
  {
    search.Some? && (p == search.value || InChain(p, search.value.parent))
  }
}
