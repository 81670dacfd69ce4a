/**
 * ClassLoaderExperiment.projectDependencies and resolveDependencies. The walk collects into a
 * LinkedHashSet under minimaven Dependency.equals: an element that is already present is
 * removed and added again, so it moves to the end (LinkedSets.Upsert). The root project's own
 * coordinates go in first, then the parent's collection filtered and managed, then each
 * dependency followed by its own collection, whose compile and null scopes a test or provided
 * dependency narrows to its own scope.
 *
 * rootProject == project holds only in the outermost call, because every other project is
 * read afresh by project(...); the model passes that as `isRoot`. The fuel bounds the depth of
 * the walk, which the source leaves to the stack.
 */
module MinimavenResolution {
  import opened Wrappers
  import opened JavaLang
  import opened JavaPaths
  import opened LinkedSets
  import opened Layout
  import opened MinimavenDependency
  import opened Minimaven
  import opened MinimavenProject

  /** The dependency made of the root project's own coordinates, every other field null. */
  function RootDependency(p: Project): (d: Dependency)
    ensures Id(d) == Identity(Some(p.artifactId), None, Some(p.groupId), None, None)
    ensures d.version == Some(p.version)
  {
    Dependency(Some(p.groupId), Some(p.artifactId), Some(p.version), None, None, None)
  }

  /** The stream filter of both forEach loops: a null scope, or neither provided nor test. */
  predicate Kept(d: Dependency) {
    d.scope.None? || (d.scope != Some("provided") && d.scope != Some("test"))
  }

  /** A direct dependency with this scope narrows its transitive dependencies to it. */
  predicate Narrowing(scope: Option<string>) {
    scope == Some("test") || scope == Some("provided")
  }

  /** One transitive dependency under a direct dependency of the given scope. */
  function Narrowed(d: Dependency, scope: Option<string>): (r: Dependency)
    ensures r == d || (Narrowing(scope) && r == d.(scope := scope))
    ensures Narrowing(scope) && (d.scope.None? || d.scope == Some("compile")) ==> r.scope == scope
  {
    if Narrowing(scope) && (d.scope.None? || d.scope == Some("compile")) then d.(scope := scope) else d
  }

  function Rewrite(ds: seq<Dependency>, scope: Option<string>): (r: seq<Dependency>)
    ensures |r| == |ds| && forall i :: 0 <= i < |ds| ==> r[i] == Narrowed(ds[i], scope)
    decreases |ds|
  {
    if |ds| == 0 then [] else [Narrowed(ds[0], scope)] + Rewrite(ds[1..], scope)
  }

  /** The two forEach loops of the test and provided cases, which set the scope in place. */
  method RewriteScopes(ds: seq<Dependency>, scope: Option<string>) returns (r: seq<Dependency>)
    ensures r == Rewrite(ds, scope)
  {
    r := ds;
    if Narrowing(scope) {
      var i := 0;
      while i < |r|
        invariant 0 <= i <= |r| == |ds|
        invariant forall j :: 0 <= j < i ==> r[j] == Narrowed(ds[j], scope)
        invariant forall j :: i <= j < |r| ==> r[j] == ds[j]
      {
        if r[i].scope.None? || r[i].scope == Some("compile") {
          r := r[i := r[i].(scope := scope)];
        }
        i := i + 1;
      }
    }
  }

  /** manageDependency against each project in turn, the first exception ending it. */
  function ManagedByAll(ps: seq<Project>, d: Dependency): (r: Result<Dependency, Exception>)
    ensures r.Failure? ==> r.error == NullPointer
    decreases |ps|
  {
    if |ps| == 0 then Success(d)
    else
      var m := ManagedBy(Some(ps[0]), d);
      if m.Failure? then Failure(m.error) else ManagedByAll(ps[1..], m.value)
  }

  /** The manageDependency calls of one forEach body, one after the other. */
  method ManageInTurn(ps: seq<Project>, d: Dependency) returns (r: Result<Dependency, Exception>)
    ensures r == ManagedByAll(ps, d)
  {
    var current := d;
    var i := 0;
    while i < |ps|
      invariant 0 <= i <= |ps|
      invariant ManagedByAll(ps[i..], current) == ManagedByAll(ps, d)
    {
      assert ps[i..][0] == ps[i] && ps[i..][1..] == ps[i + 1..];
      var m := ManageDependency(ps[i], current);
      if m.Failure? {
        return Failure(m.error);
      }
      current := m.value;
      i := i + 1;
    }
    assert ps[i..] == [];
    return Success(current);
  }

  /** What a forEach loop upserts: the kept elements, each managed against the projects. */
  function Items(ps: seq<Project>, ds: seq<Dependency>): (r: Result<seq<Dependency>, Exception>)
    ensures r.Failure? ==> r.error == NullPointer
    decreases |ds|
  {
    if |ds| == 0 then Success([])
    else if !Kept(ds[0]) then Items(ps, ds[1..])
    else
      var m := ManagedByAll(ps, ds[0]);
      if m.Failure? then Failure(m.error)
      else
        var rest := Items(ps, ds[1..]);
        if rest.Failure? then Failure(rest.error) else Success([m.value] + rest.value)
  }

  /** The items upserted into the collection, or the exception that ended the loop. */
  function Upserted(acc: seq<Dependency>, items: Result<seq<Dependency>, Exception>): Result<seq<Dependency>, Exception> {
    if items.Failure? then Failure(items.error) else Success(UpsertAll(acc, items.value, Id))
  }

  /** The forEach loop: filter, manage, and remove-and-re-add when already present. */
  method UpsertEach(acc: seq<Dependency>, ps: seq<Project>, ds: seq<Dependency>) returns (r: Result<seq<Dependency>, Exception>)
    ensures r == Upserted(acc, Items(ps, ds))
  {
    var dependencies := acc;
    var i := 0;
    while i < |ds|
      invariant 0 <= i <= |ds|
      invariant Upserted(dependencies, Items(ps, ds[i..])) == Upserted(acc, Items(ps, ds))
    {
      assert ds[i..][0] == ds[i] && ds[i..][1..] == ds[i + 1..];
      if Kept(ds[i]) {
        var m := ManageInTurn(ps, ds[i]);
        if m.Failure? {
          return Failure(m.error);
        }
        UpsertedStep(dependencies, m.value, Items(ps, ds[i + 1..]));
        dependencies := Upsert(dependencies, m.value, Id);
      }
      i := i + 1;
    }
    assert ds[i..] == [];
    return Success(dependencies);
  }

  lemma UpsertedStep(acc: seq<Dependency>, x: Dependency, rest: Result<seq<Dependency>, Exception>)
    ensures Upserted(acc, if rest.Failure? then Failure(rest.error) else Success([x] + rest.value))
      == Upserted(Upsert(acc, x, Id), rest)
  {
    if rest.Success? {
      assert ([x] + rest.value)[0] == x && ([x] + rest.value)[1..] == rest.value;
    }
  }

  // ---------------------------------------------------------------------------
  // The walk

  /** The collection the walk starts from: the root project's own coordinates in the outermost call. */
  function Start(isRoot: bool, project: Project): seq<Dependency> {
    if isRoot then [RootDependency(project)] else []
  }

  /** projectDependencies(localRepository, rootProject, project, scope). */
  function ProjectDependencies(repo: map<Path, Pom>, root: Project, isRoot: bool, project: Project, fuel: nat)
    : Result<seq<Dependency>, Exception>
    decreases fuel, project, 2, 0
  {
    var withParent := WithParent(repo, root, isRoot, project, fuel);
    if withParent.Failure? then withParent else ChildDependencies(repo, root, project, fuel, withParent.value, 0)
  }

  /** The start, then the parent's collection filtered, managed against the project and upserted. */
  function WithParent(repo: map<Path, Pom>, root: Project, isRoot: bool, project: Project, fuel: nat)
    : Result<seq<Dependency>, Exception>
    decreases fuel, project, 1, 0
  {
    if project.parent.None? then Success(Start(isRoot, project))
    else
      var inherited := ProjectDependencies(repo, root, false, project.parent.value, fuel);
      if inherited.Failure? then Failure(inherited.error) else Upserted(Start(isRoot, project), Items([project], inherited.value))
  }

  /** The for loop over project.dependencies from index i on, into the collection acc. */
  function ChildDependencies(repo: map<Path, Pom>, root: Project, project: Project, fuel: nat,
                             acc: seq<Dependency>, i: nat): Result<seq<Dependency>, Exception>
    requires i <= |project.dependencies|
    decreases fuel, project, 0, |project.dependencies| - i + 1
  {
    if i == |project.dependencies| then Success(acc)
    else
      var next := ChildStep(repo, root, project, fuel, acc, project.dependencies[i]);
      if next.Failure? then next else ChildDependencies(repo, root, project, fuel, next.value, i + 1)
  }

  /**
   * One turn of the for loop: read the dependency's project, collect its dependencies, manage
   * the dependency against the root, this project and its own project, upsert it, then
   * narrow its collection and upsert what the filter keeps.
   */
  function ChildStep(repo: map<Path, Pom>, root: Project, project: Project, fuel: nat,
                     acc: seq<Dependency>, pd: Dependency): Result<seq<Dependency>, Exception>
    decreases fuel, project, 0, 0
  {
    if fuel == 0 then Failure(OutOfFuel)
    else
      var path := PomPath(pd.groupId, pd.artifactId, pd.version);
      if path.Failure? then Failure(path.error)
      else
        var dp := ProjectOf(repo, path.value, fuel);
        if dp.Failure? then Failure(dp.error)
        else
          var dd := ProjectDependencies(repo, root, false, dp.value, fuel - 1);
          if dd.Failure? then Failure(dd.error)
          else
            var m := ManagedByAll([root, project, dp.value], pd);
            if m.Failure? then Failure(m.error)
            else Upserted(Upsert(acc, m.value, Id), Items([root, project, dp.value], Rewrite(dd.value, m.value.scope)))
  }

  /** projectDependencies as the source writes it: loops over a LinkedHashSet held in a variable. */
  method CollectDependencies(repo: map<Path, Pom>, root: Project, isRoot: bool, project: Project, fuel: nat)
    returns (r: Result<seq<Dependency>, Exception>)
    ensures r == ProjectDependencies(repo, root, isRoot, project, fuel)
    decreases fuel, project, 2, 0
  {
    var withParent := CollectInherited(repo, root, isRoot, project, fuel);
    if withParent.Failure? {
      return withParent;
    }
    var dependencies := withParent.value;
    var i := 0;
    while i < |project.dependencies|
      invariant 0 <= i <= |project.dependencies|
      invariant ChildDependencies(repo, root, project, fuel, dependencies, i) == ProjectDependencies(repo, root, isRoot, project, fuel)
    {
      var pd := project.dependencies[i];
      var next := CollectChild(repo, root, project, fuel, dependencies, pd);
      ChildDependenciesUnfold(repo, root, project, fuel, dependencies, i);
      if next.Failure? {
        return next;
      }
      dependencies := next.value;
      i := i + 1;
    }
    return Success(dependencies);
  }

  /** One turn of the for loop: its step, then the rest of the loop. */
  lemma ChildDependenciesUnfold(repo: map<Path, Pom>, root: Project, project: Project, fuel: nat,
                                acc: seq<Dependency>, i: nat)
    requires i < |project.dependencies|
    ensures var next := ChildStep(repo, root, project, fuel, acc, project.dependencies[i]);
      ChildDependencies(repo, root, project, fuel, acc, i) ==
        if next.Failure? then next else ChildDependencies(repo, root, project, fuel, next.value, i + 1)
  {
  }

  /** The start of projectDependencies: the root's coordinates, then the parent's collection. */
  method CollectInherited(repo: map<Path, Pom>, root: Project, isRoot: bool, project: Project, fuel: nat)
    returns (r: Result<seq<Dependency>, Exception>)
    ensures r == WithParent(repo, root, isRoot, project, fuel)
    decreases fuel, project, 1, 0
  {
    var dependencies: seq<Dependency> := if isRoot then [RootDependency(project)] else [];
    if project.parent.None? {
      return Success(dependencies);
    }
    var inherited := CollectDependencies(repo, root, false, project.parent.value, fuel);
    if inherited.Failure? {
      return Failure(inherited.error);
    }
    r := UpsertEach(dependencies, [project], inherited.value);
  }

  /** The body of the for loop. */
  method CollectChild(repo: map<Path, Pom>, root: Project, project: Project, fuel: nat,
                      acc: seq<Dependency>, pd: Dependency) returns (r: Result<seq<Dependency>, Exception>)
    ensures r == ChildStep(repo, root, project, fuel, acc, pd)
    decreases fuel, project, 0, 0
  {
    if fuel == 0 {
      return Failure(OutOfFuel);
    }
    var path := PomPath(pd.groupId, pd.artifactId, pd.version);
    if path.Failure? {
      return Failure(path.error);
    }
    var dp := ProjectOf(repo, path.value, fuel);
    if dp.Failure? {
      return Failure(dp.error);
    }
    var dd := CollectDependencies(repo, root, false, dp.value, fuel - 1);
    if dd.Failure? {
      return Failure(dd.error);
    }
    var m := ManageInTurn([root, project, dp.value], pd);
    if m.Failure? {
      return Failure(m.error);
    }
    var dependencies := Upsert(acc, m.value, Id);
    var narrowed := RewriteScopes(dd.value, m.value.scope);
    r := UpsertEach(dependencies, [root, project, dp.value], narrowed);
  }

  // ---------------------------------------------------------------------------
  // Properties of the walk

  /** The loops only ever upsert: the for loop's result is its start with some sequence of elements upserted. */
  lemma {:induction false} ChildDependenciesUpserts(repo: map<Path, Pom>, root: Project, project: Project, fuel: nat,
                                                    acc: seq<Dependency>, i: nat) returns (w: seq<Dependency>)
    requires i <= |project.dependencies|
    requires ChildDependencies(repo, root, project, fuel, acc, i).Success?
    ensures ChildDependencies(repo, root, project, fuel, acc, i).value == UpsertAll(acc, w, Id)
    decreases |project.dependencies| - i
  {
    if i == |project.dependencies| {
      w := [];
    } else {
      var pd := project.dependencies[i];
      var next := ChildStep(repo, root, project, fuel, acc, pd);
      ChildDependenciesUnfold(repo, root, project, fuel, acc, i);
      var u := ChildStepUpserts(repo, root, project, fuel, acc, pd);
      var v := ChildDependenciesUpserts(repo, root, project, fuel, next.value, i + 1);
      UpsertAllAppend(acc, u, v, Id);
      w := u + v;
    }
  }

  lemma ChildStepUpserts(repo: map<Path, Pom>, root: Project, project: Project, fuel: nat,
                         acc: seq<Dependency>, pd: Dependency) returns (w: seq<Dependency>)
    requires ChildStep(repo, root, project, fuel, acc, pd).Success?
    ensures ChildStep(repo, root, project, fuel, acc, pd).value == UpsertAll(acc, w, Id)
  {
    var path := PomPath(pd.groupId, pd.artifactId, pd.version);
    var dp := ProjectOf(repo, path.value, fuel);
    var dd := ProjectDependencies(repo, root, false, dp.value, fuel - 1);
    var m := ManagedByAll([root, project, dp.value], pd);
    var items := Items([root, project, dp.value], Rewrite(dd.value, m.value.scope));
    w := [m.value] + items.value;
    assert w[0] == m.value && w[1..] == items.value;
  }

  /** The parent's part of the walk upserts into the start. */
  lemma WithParentUpserts(repo: map<Path, Pom>, root: Project, isRoot: bool, project: Project, fuel: nat)
    returns (w: seq<Dependency>)
    requires WithParent(repo, root, isRoot, project, fuel).Success?
    ensures WithParent(repo, root, isRoot, project, fuel).value == UpsertAll(Start(isRoot, project), w, Id)
  {
    w := [];
    if project.parent.Some? {
      var inherited := ProjectDependencies(repo, root, false, project.parent.value, fuel);
      w := Items([project], inherited.value).value;
    }
  }

  /**
   * Everything the walk collects is upserted into its start: the root's own coordinates in
   * the outermost call, nothing otherwise.
   */
  lemma ProjectDependenciesUpserts(repo: map<Path, Pom>, root: Project, isRoot: bool, project: Project, fuel: nat)
    returns (w: seq<Dependency>)
    requires ProjectDependencies(repo, root, isRoot, project, fuel).Success?
    ensures ProjectDependencies(repo, root, isRoot, project, fuel).value == UpsertAll(Start(isRoot, project), w, Id)
  {
    var withParent := WithParent(repo, root, isRoot, project, fuel);
    var u := WithParentUpserts(repo, root, isRoot, project, fuel);
    var v := ChildDependenciesUpserts(repo, root, project, fuel, withParent.value, 0);
    UpsertAllAppend(Start(isRoot, project), u, v, Id);
    w := u + v;
  }

  /** The collection never holds two dependencies that are equal under Dependency.equals. */
  lemma ProjectDependenciesNoDup(repo: map<Path, Pom>, root: Project, isRoot: bool, project: Project, fuel: nat)
    requires ProjectDependencies(repo, root, isRoot, project, fuel).Success?
    ensures NoDup(ProjectDependencies(repo, root, isRoot, project, fuel).value, Id)
  {
    var w := ProjectDependenciesUpserts(repo, root, isRoot, project, fuel);
    UpsertAllNoDup(Start(isRoot, project), w, Id);
  }

  /**
   * The root's coordinates go in first and stay first unless an equal dependency is added
   * again; every other element stands where its last addition put it.
   */
  lemma RootFirst(repo: map<Path, Pom>, project: Project, fuel: nat) returns (w: seq<Dependency>)
    requires ProjectDependencies(repo, project, true, project, fuel).Success?
    ensures ProjectDependencies(repo, project, true, project, fuel).value ==
      (if Id(RootDependency(project)) in Keys(w, Id) then [] else [RootDependency(project)]) + LastOccurrences(w, Id)
    ensures Id(RootDependency(project)) in Keys(ProjectDependencies(repo, project, true, project, fuel).value, Id)
  {
    w := ProjectDependenciesUpserts(repo, project, true, project, fuel);
    UpsertAllSingle(RootDependency(project), w, Id);
  }

  /** Managing never touches a set scope, against any number of projects. */
  lemma {:induction false} ManagedByAllKeepsScope(ps: seq<Project>, d: Dependency)
    requires ManagedByAll(ps, d).Success? && d.scope.Some?
    ensures ManagedByAll(ps, d).value.scope == d.scope
    decreases |ps|
  {
    if |ps| > 0 {
      ManagedKeepsWhatIsSet(Some(ps[0]), d);
      ManagedByAllKeepsScope(ps[1..], ManagedBy(Some(ps[0]), d).value);
    }
  }

  /**
   * Under a test or provided dependency, a transitive dependency that is added has a scope
   * set to something other than compile, test or provided: the null and compile ones were
   * narrowed and then dropped by the filter along with the test and provided ones.
   */
  lemma {:induction false} NarrowedItems(ps: seq<Project>, ds: seq<Dependency>, scope: Option<string>)
    requires Narrowing(scope) && Items(ps, Rewrite(ds, scope)).Success?
    ensures forall x :: x in Items(ps, Rewrite(ds, scope)).value ==>
      x.scope.Some? && x.scope.value != "compile" && x.scope.value != "test" && x.scope.value != "provided"
    decreases |ds|
  {
    if |ds| > 0 {
      var rs := Rewrite(ds, scope);
      assert rs[0] == Narrowed(ds[0], scope);
      assert rs[1..] == Rewrite(ds[1..], scope);
      NarrowedItems(ps, ds[1..], scope);
      if Kept(rs[0]) {
        ManagedByAllKeepsScope(ps, rs[0]);
      }
    }
  }

  /** A narrowing scope rewrites exactly the null and compile scopes; any other scope leaves all as they are. */
  lemma RewriteScopesOnly(ds: seq<Dependency>, scope: Option<string>, i: nat)
    requires i < |ds|
    ensures var r := Rewrite(ds, scope)[i];
      r.(scope := ds[i].scope) == ds[i]
      && r.scope == (if Narrowing(scope) && (ds[i].scope.None? || ds[i].scope == Some("compile")) then scope else ds[i].scope)
  {
  }

  // ---------------------------------------------------------------------------
  // resolveDependencies

  /** String concatenation of a possibly null string. */
  function Text(s: Option<string>): string {
    if s.None? then "null" else s.value
  }

  /** d.groupId + ":" + d.artifactId + ":" + d.version. */
  function Coordinate(d: Dependency): string {
    Text(d.groupId) + ":" + Text(d.artifactId) + ":" + Text(d.version)
  }

  predicate CompileScoped(d: Dependency) {
    d.scope.None? || d.scope == Some("compile")
  }

  /** filter(null or compile scope).map(coordinate), in order. */
  function CompileCoordinates(ds: seq<Dependency>): (r: seq<string>)
    ensures forall x :: x in r <==> exists d :: d in ds && CompileScoped(d) && Coordinate(d) == x
    decreases |ds|
  {
    if |ds| == 0 then []
    else
      var rest := CompileCoordinates(ds[1..]);
      assert forall d :: d in ds <==> d == ds[0] || d in ds[1..];
      if CompileScoped(ds[0]) then [Coordinate(ds[0])] + rest else rest
  }

  function Itself(s: string): string { s }

  /**
   * resolveDependencies(localRepository, artifact): the compile-scoped coordinates of the walk
   * from the artifact's project, collected into a LinkedHashSet of strings.
   */
  function ResolveDependencies(repo: map<Path, Pom>, artifact: string, fuel: nat): (r: Result<seq<string>, Exception>)
  {
    var path := PomPathOfCoordinate(artifact);
    if path.Failure? then Failure(path.error)
    else
      var project := ProjectOf(repo, path.value, fuel);
      if project.Failure? then Failure(project.error)
      else
        var dependencies := ProjectDependencies(repo, project.value, true, project.value, fuel);
        if dependencies.Failure? then Failure(dependencies.error)
        else Success(AddAll([], CompileCoordinates(dependencies.value), Itself))
  }

  /** The LinkedHashSet of the compile coordinates holds exactly them, each once. */
  lemma CoordinatesHeld(collected: seq<Dependency>)
    ensures var cs := CompileCoordinates(collected);
      var r := AddAll([], cs, Itself);
      && NoDup(r, Itself)
      && (forall x :: x in r <==> exists d :: d in collected && CompileScoped(d) && Coordinate(d) == x)
      && Keys(r, Itself) == Keys(cs, Itself)
  {
    var cs := CompileCoordinates(collected);
    var r := AddAll([], cs, Itself);
    AddAllNoDup([], cs, Itself);
    AddAllKeys([], cs, Itself);
    forall x | x in r
      ensures x in cs
    {
      KeysWitness(cs, x, Itself);
    }
    forall x | x in cs
      ensures x in r
    {
      KeysWitness(r, x, Itself);
    }
  }

  /** The LinkedHashSet of the compile coordinates keeps their first-occurrence order, the first one first. */
  lemma CoordinatesOrdered(collected: seq<Dependency>)
    ensures var cs := CompileCoordinates(collected);
      var r := AddAll([], cs, Itself);
      && Keys(r, Itself) == Keys(cs, Itself)
      && (forall i, j :: 0 <= i < j < |r| ==> FirstIndex(cs, r[i], Itself) < FirstIndex(cs, r[j], Itself))
      && (|collected| > 0 && CompileScoped(collected[0]) ==> |r| > 0 && r[0] == Coordinate(collected[0]))
  {
    var cs := CompileCoordinates(collected);
    AddAllKeys([], cs, Itself);
    AddAllKeepsOrder([], cs, Itself);
    if |collected| > 0 && CompileScoped(collected[0]) {
      AddAllHead(cs, Itself);
    }
  }

  /**
   * What resolveDependencies returns: the coordinates of the compile-scoped (or unscoped)
   * dependencies the walk from the artifact's project collects, each once. A coordinate with
   * fewer than three parts throws ArrayIndexOutOfBoundsException before anything is read.
   */
  lemma ResolveDependenciesSpec(repo: map<Path, Pom>, artifact: string, fuel: nat) returns (collected: seq<Dependency>)
    ensures |Split(artifact, ':')| < 3 ==> ResolveDependencies(repo, artifact, fuel) == Failure(IndexOutOfBounds)
    ensures var r := ResolveDependencies(repo, artifact, fuel);
      r.Success? ==> (
        var project := ProjectOf(repo, PomPathOfCoordinate(artifact).value, fuel).value;
        ProjectDependencies(repo, project, true, project, fuel) == Success(collected)
        && NoDup(r.value, Itself)
        && (forall x :: x in r.value <==> exists d :: d in collected && CompileScoped(d) && Coordinate(d) == x)
        && Keys(r.value, Itself) == Keys(CompileCoordinates(collected), Itself)
        && (forall i, j :: 0 <= i < j < |r.value| ==>
              FirstIndex(CompileCoordinates(collected), r.value[i], Itself) < FirstIndex(CompileCoordinates(collected), r.value[j], Itself))
        && (|collected| > 0 && CompileScoped(collected[0]) ==> |r.value| > 0 && r.value[0] == Coordinate(collected[0])))
  {
    collected := [];
    var r := ResolveDependencies(repo, artifact, fuel);
    if r.Success? {
      var project := ProjectOf(repo, PomPathOfCoordinate(artifact).value, fuel).value;
      collected := ProjectDependencies(repo, project, true, project, fuel).value;
      assert r.value == AddAll([], CompileCoordinates(collected), Itself);
      CoordinatesHeld(collected);
      CoordinatesOrdered(collected);
    }
  }
}
