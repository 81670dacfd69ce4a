/**
 * ClassLoaderExperiment.project(localRepository, pom): a POM read into a Project. The parent
 * named by the single `<parent>` element is read first, groupId and version fall back to the
 * parent's, `project.version` is seeded before the `<properties>` are put, and a dependency
 * without a version is managed against the project read so far.
 *
 * The repository is a map from the POM's path, relative to the repository root, to the parsed
 * POM; a path the map lacks is a download that failed.
 */
module MinimavenProject {
  import opened Wrappers
  import opened JavaLang
  import opened JavaPaths
  import opened Templating
  import opened Layout
  import opened MinimavenDependency
  import opened Minimaven

  /** The text of the first groupId, artifactId and version element under `<parent>`, each possibly absent. */
  datatype Coordinates = Coordinates(groupId: Option<string>, artifactId: Option<string>, version: Option<string>)

  /** A `<dependency>` element: the text of its first groupId, artifactId, version and scope elements. */
  datatype PomEntry = PomEntry(groupId: Option<string>, artifactId: Option<string>, version: Option<string>,
                               scope: Option<string>)

  /**
   * A parsed POM: for each tag the project element's children with that name, in document
   * order. A `<properties>` element is its element children as (tag, text) pairs; a
   * `<dependencyManagement>` or `<dependencies>` element is the `<dependency>` elements below it.
   */
  datatype Pom = Pom(
    parents: seq<Coordinates>,
    artifactIds: seq<string>,
    groupIds: seq<string>,
    versions: seq<string>,
    properties: seq<seq<(string, string)>>,
    managements: seq<seq<PomEntry>>,
    dependencyLists: seq<seq<PomEntry>>)

  /** template(version, project.properties) on a version that is present. */
  function TemplatedVersion(version: Option<string>, properties: map<string, string>): (r: Option<string>)
    ensures r.Some? <==> version.Some?
  {
    if version.None? then None else Some(Substitute(PropertyToken, PropertiesLookup(properties), version.value))
  }

  /** A dependencyManagement entry: the version templated, packaging and classifier null. */
  function ManagementEntry(e: PomEntry, properties: map<string, string>): (d: Dependency)
    ensures d.groupId == e.groupId && d.artifactId == e.artifactId && d.scope == e.scope
    ensures d.packaging.None? && d.classifier.None?
  {
    Dependency(e.groupId, e.artifactId, TemplatedVersion(e.version, properties), None, None, e.scope)
  }

  function ManagementEntries(es: seq<PomEntry>, properties: map<string, string>): (r: seq<Dependency>)
    ensures |r| == |es| && forall i :: 0 <= i < |es| ==> r[i] == ManagementEntry(es[i], properties)
    decreases |es|
  {
    if |es| == 0 then [] else [ManagementEntry(es[0], properties)] + ManagementEntries(es[1..], properties)
  }

  /**
   * A `<dependencies>` entry: a version is templated; without one the dependency is managed
   * against the project so far. The scope is read afterwards, so it is the entry's own scope
   * whatever management filled in.
   */
  function DependencyEntry(partial: Project, e: PomEntry): (r: Result<Dependency, Exception>)
    ensures r.Failure? ==> e.version.None? && r.error == NullPointer
    ensures r.Success? ==> (r.value.groupId == e.groupId && r.value.artifactId == e.artifactId
      && r.value.scope == e.scope && r.value.packaging.None? && r.value.classifier.None?)
    ensures e.version.Some? ==> r.Success? && r.value.version == TemplatedVersion(e.version, partial.properties)
    ensures e.version.None? ==> r.Success? == ManagedBy(Some(partial), Dependency(e.groupId, e.artifactId, None, None, None, None)).Success?
  {
    var dep := Dependency(e.groupId, e.artifactId, e.version, None, None, None);
    if e.version.Some? then Success(dep.(version := TemplatedVersion(e.version, partial.properties), scope := e.scope))
    else
      var managed := ManagedBy(Some(partial), dep);
      if managed.Failure? then Failure(managed.error)
      else
        ManagedKeepsWhatIsSet(Some(partial), dep);
        Success(managed.value.(scope := e.scope))
  }

  /** The `<dependencies>` loop: every entry in order, the first exception ending it. */
  function DependencyEntries(partial: Project, es: seq<PomEntry>): (r: Result<seq<Dependency>, Exception>)
    ensures r.Success? <==> forall i :: 0 <= i < |es| ==> DependencyEntry(partial, es[i]).Success?
    ensures r.Success? ==> |r.value| == |es| && forall i :: 0 <= i < |es| ==> r.value[i] == DependencyEntry(partial, es[i]).value
    decreases |es|
  {
    if |es| == 0 then Success([])
    else
      var d := DependencyEntry(partial, es[0]);
      if d.Failure? then Failure(d.error)
      else
        var rest := DependencyEntries(partial, es[1..]);
        assert forall i :: 1 <= i < |es| ==> es[i] == es[1..][i - 1];
        if rest.Failure? then Failure(rest.error) else Success([d.value] + rest.value)
  }

  /** project.properties: `project.version` first, then the first `<properties>` element's pairs. */
  function ProjectProperties(version: string, pom: Pom): map<string, string> {
    PutAll(map["project.version" := version], if |pom.properties| == 0 then [] else pom.properties[0])
  }

  /** Everything project(...) does once the parent, if any, is read. */
  function Build(pom: Pom, parent: Option<Project>): (r: Result<Project, Exception>)
    ensures r.Success? ==> r.value.parent == parent
  {
    if |pom.artifactIds| == 0 then Failure(IndexOutOfBounds)
    else if |pom.groupIds| == 0 && parent.None? then Failure(NullPointer)
    else
      var groupId := if |pom.groupIds| > 0 then pom.groupIds[0] else parent.value.groupId;
      if |pom.versions| == 0 && parent.None? then Failure(NullPointer)
      else
        var version := if |pom.versions| > 0 then pom.versions[0] else parent.value.version;
        var properties := ProjectProperties(version, pom);
        var management := if |pom.managements| == 0 then None else Some(ManagementEntries(pom.managements[0], properties));
        var partial := Project(parent, groupId, pom.artifactIds[0], version, management, [], properties);
        var dependencies := DependencyEntries(partial, if |pom.dependencyLists| == 0 then [] else pom.dependencyLists[0]);
        if dependencies.Failure? then Failure(dependencies.error)
        else Success(partial.(dependencies := dependencies.value))
  }

  /**
   * project(localRepository, pom). The fuel bounds the chain of parents, which the source
   * follows without limit; running out is OutOfFuel.
   */
  function ProjectOf(repo: map<Path, Pom>, path: Path, fuel: nat): (r: Result<Project, Exception>)
    ensures path !in repo ==> r == Failure(IllegalArgument("Download failed"))
    decreases fuel
  {
    if path !in repo then Failure(IllegalArgument("Download failed"))
    else
      var pom := repo[path];
      if |pom.parents| != 1 then Build(pom, None)
      else if fuel == 0 then Failure(OutOfFuel)
      else
        var c := pom.parents[0];
        var parentPath := PomPath(c.groupId, c.artifactId, c.version);
        if parentPath.Failure? then Failure(parentPath.error)
        else
          var parent := ProjectOf(repo, parentPath.value, fuel - 1);
          if parent.Failure? then Failure(parent.error)
          else Build(pom, Some(parent.value))
  }

  /** The project that project(...) reads from a path of the repository, given how its parent turned out. */
  lemma ProjectOfBuilds(repo: map<Path, Pom>, path: Path, fuel: nat)
    requires ProjectOf(repo, path, fuel).Success?
    ensures path in repo
    ensures var pom := repo[path];
      |pom.parents| != 1 ==> ProjectOf(repo, path, fuel) == Build(pom, None)
    ensures var pom := repo[path];
      |pom.parents| == 1 ==> (fuel > 0 &&
        var c := pom.parents[0];
        PomPath(c.groupId, c.artifactId, c.version).Success? &&
        var parent := ProjectOf(repo, PomPath(c.groupId, c.artifactId, c.version).value, fuel - 1);
        parent.Success? && ProjectOf(repo, path, fuel) == Build(pom, Some(parent.value)))
  {
  }

  /**
   * groupId and version are the project's own first elements, or else the parent's; without
   * either the project's artifactId element the read fails.
   */
  lemma BuildInherits(pom: Pom, parent: Option<Project>)
    requires Build(pom, parent).Success?
    ensures var p := Build(pom, parent).value;
      |pom.artifactIds| > 0 && p.artifactId == pom.artifactIds[0]
      && (if |pom.groupIds| > 0 then p.groupId == pom.groupIds[0] else parent.Some? && p.groupId == parent.value.groupId)
      && (if |pom.versions| > 0 then p.version == pom.versions[0] else parent.Some? && p.version == parent.value.version)
  {
  }

  /** A POM without an artifactId element, or without groupId or version and without a parent, fails. */
  lemma BuildFails(pom: Pom, parent: Option<Project>)
    ensures |pom.artifactIds| == 0 ==> Build(pom, parent) == Failure(IndexOutOfBounds)
    ensures |pom.artifactIds| > 0 && parent.None? && (|pom.groupIds| == 0 || |pom.versions| == 0) ==>
      Build(pom, parent) == Failure(NullPointer)
  {
  }

  /**
   * `project.version` holds the final version, unless a `<properties>` element sets it; every
   * pair of the first `<properties>` element is a property, the last of a tag winning.
   */
  lemma ProjectVersionSeeded(version: string, pom: Pom)
    ensures "project.version" in ProjectProperties(version, pom)
    ensures (|pom.properties| == 0 || forall i :: 0 <= i < |pom.properties[0]| ==> pom.properties[0][i].0 != "project.version")
      ==> ProjectProperties(version, pom)["project.version"] == version
  {
    var pairs := if |pom.properties| == 0 then [] else pom.properties[0];
    if forall i :: 0 <= i < |pairs| ==> pairs[i].0 != "project.version" {
      PutAllKeeps(map["project.version" := version], pairs, "project.version");
    }
  }

  /**
   * Every dependency of a project read from a POM has the groupId, artifactId and scope its
   * entry gives, a templated version when the entry has one, and no packaging or classifier.
   */
  lemma BuildDependencies(pom: Pom, parent: Option<Project>, i: nat)
    requires Build(pom, parent).Success?
    requires |pom.dependencyLists| > 0 && i < |pom.dependencyLists[0]|
    ensures var p := Build(pom, parent).value; var e := pom.dependencyLists[0][i];
      |p.dependencies| == |pom.dependencyLists[0]|
      && p.dependencies[i].groupId == e.groupId && p.dependencies[i].artifactId == e.artifactId
      && p.dependencies[i].scope == e.scope
      && p.dependencies[i].packaging.None? && p.dependencies[i].classifier.None?
      && (e.version.Some? ==> p.dependencies[i].version == TemplatedVersion(e.version, p.properties))
  {
    var p := Build(pom, parent).value;
    var partial := p.(dependencies := []);
    assert DependencyEntries(partial, pom.dependencyLists[0]).Success?;
  }
}
