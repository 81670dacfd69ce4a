/**
 * MavenExecutor.Maven.resolve(artifact, artifacts): reads the artifact's POM, resolves its
 * parent, takes over the POM's coordinates and properties, collects its dependency management
 * (an `import` entry contributes the imported POM's management instead of itself), collects its
 * dependencies with templated versions, re-resolves every dependency of the parent chain whose
 * managed version changed, and finally manages and resolves each of its own dependencies.
 *
 * The POMs are an oracle: a map from a POM's repository path to the parsed document, a path
 * that is absent being one no repository serves. The `artifacts` list is the stack of
 * artifacts being resolved: `ancestors` here, with the artifact's current value appended at
 * each point where the Java code passes the list on. Recursion is bounded by fuel: a parent
 * chain or an import that loops back makes the Java code recurse until the stack overflows,
 * and here it runs out of fuel.
 */
module MvnxResolution {
  import opened Wrappers
  import opened JavaLang
  import opened JavaPaths
  import opened Templating
  import opened Layout
  import opened MvnxArtifact

  /** An XML element as the resolver reads it: each child tag's text, taken from the first child with that tag. */
  type Element = map<string, string>

  /** A parsed POM: what resolve reads of the `<project>` element. */
  datatype Pom = Pom(
    parents: seq<Element>,              // the <parent> children, all of them
    groupId: Option<string>,
    artifactId: Option<string>,
    version: Option<string>,
    packaging: Option<string>,
    properties: seq<(string, string)>,  // the child elements of the first <properties>, in document order
    management: seq<Element>,           // every <dependency> inside the first <dependencyManagement>
    dependencies: seq<Element>)         // the <dependency> children of the first <dependencies>

  /** What resolve reads besides the artifact: the POMs, the environment, the system properties, the template passes allowed. */
  datatype Context = Context(poms: map<Path, Pom>, env: map<string, string>, sys: map<string, string>, passes: nat)

  /** getTextContentFromFirstChildElementByTagName: null when the element has no child with that tag. */
  function Text(e: Element, tag: string): Option<string> {
    if tag in e then Some(e[tag]) else None
  }

  /** artifactFromElement: packaging is the `<type>`, `jar` by default; optional only for the exact text `true`. */
  function FromElement(e: Element): (r: Artifact)
    ensures r.parent.None? && r.dependencyManagement == [] && r.dependencies == [] && r.properties == map[]
    ensures r.groupId == Text(e, "groupId") && r.artifactId == Text(e, "artifactId") && r.version == Text(e, "version")
    ensures r.scope == Text(e, "scope") && r.classifier == Text(e, "classifier")
    ensures r.packaging == Some(if "type" in e then e["type"] else "jar")
    ensures r.optional <==> "optional" in e && e["optional"] == "true"
  {
    Empty().(groupId := Text(e, "groupId"), artifactId := Text(e, "artifactId"), version := Text(e, "version"),
             scope := Text(e, "scope"), classifier := Text(e, "classifier"),
             packaging := Some(Text(e, "type").GetOr("jar")), optional := Text(e, "optional") == Some("true"))
  }

  /** pom(artifact): the document at the artifact's `.pom` path, or "Download failed" when no repository has it. */
  function PomOf(ctx: Context, a: Artifact): (r: Result<Pom, Exception>)
    ensures a.groupId.None? || a.artifactId.None? || a.version.None? ==> r == Failure(NullPointer)
    ensures r.Failure? && r.error != NullPointer ==>
      var path := MavenPath(a.groupId, a.artifactId, a.version, Some("pom")).value;
      path !in ctx.poms && r.error == IllegalArgument("Download failed " + ToString(path))
    ensures r.Success? ==> var path := MavenPath(a.groupId, a.artifactId, a.version, Some("pom"));
      path.Success? && path.value in ctx.poms && r.value == ctx.poms[path.value]
  {
    var path :- MavenPath(a.groupId, a.artifactId, a.version, Some("pom"));
    if path in ctx.poms then Success(ctx.poms[path])
    else Failure(IllegalArgument("Download failed " + ToString(path)))
  }

  // ---------------------------------------------------------------------------
  // What a resolved artifact looks like

  /** groupId, version and packaging are known: the artifact has a repository path. */
  predicate HasCoordinates(a: Artifact) {
    a.groupId.Some? && a.version.Some? && a.packaging.Some?
  }

  /** No entry has scope `import`. */
  predicate NoImport(ms: seq<Artifact>) {
    forall i :: 0 <= i < |ms| ==> ms[i].scope != Some("import")
  }

  /** Every entry has a scope. */
  predicate AllScoped(ds: seq<Artifact>) {
    forall i :: 0 <= i < |ds| ==> ds[i].scope.Some?
  }

  /** The fields resolve never writes on the artifact it resolves. */
  predicate KeepsDeclaration(a: Artifact, b: Artifact) {
    b.scope == a.scope && b.classifier == a.classifier && b.optional == a.optional
  }

  /** The parent chain rebuilt from a root-first list of levels: each level's parent is the level before it. */
  function Chain(h: seq<Artifact>): (r: Option<Artifact>)
    ensures r.None? <==> |h| == 0
    decreases |h|
  {
    if |h| == 0 then None else Some(h[|h| - 1].(parent := Chain(h[..|h| - 1])))
  }

  // ---------------------------------------------------------------------------
  // resolve, step by step

  /** Lines 231-237: exactly one `<parent>` is resolved, as a `pom`, and becomes the artifact's parent. */
  function WithParent(ctx: Context, a: Artifact, pom: Pom, ancestors: seq<Artifact>, fuel: nat): (r: Result<Artifact, Exception>)
    ensures r.Success? ==> r.value == a.(parent := r.value.parent)
    ensures r.Success? && |pom.parents| != 1 ==> r.value == a
    ensures r.Success? && |pom.parents| == 1 ==> r.value.parent.Some? && HasCoordinates(r.value.parent.value)
    decreases fuel, 1, 0, 0
  {
    if |pom.parents| == 1 then
      var parent :- Resolve(ctx, FromElement(pom.parents[0]).(packaging := Some("pom")), ancestors + [a], fuel);
      Success(a.(parent := Some(parent)))
    else Success(a)
  }

  /**
   * Lines 239-265: the POM's coordinates replace the artifact's, a missing groupId or version
   * is the parent's (a NullPointerException without a parent), packaging is `jar` by default,
   * `project.version` is set to the version and the POM's properties are put over it.
   */
  function Adopt(a: Artifact, pom: Pom): (r: Result<Artifact, Exception>)
    ensures r.Failure? <==> (pom.groupId.None? || pom.version.None?) && a.parent.None?
    ensures r.Failure? ==> r.error == NullPointer
    ensures r.Success? ==> r.value == a.(artifactId := pom.artifactId, groupId := r.value.groupId, version := r.value.version,
                                         packaging := r.value.packaging, properties := r.value.properties)
    ensures r.Success? ==> r.value.groupId == (if pom.groupId.Some? then pom.groupId else a.parent.value.groupId)
    ensures r.Success? ==> r.value.version == (if pom.version.Some? then pom.version else a.parent.value.version)
    ensures r.Success? ==> r.value.packaging == Some(if pom.packaging.Some? then pom.packaging.value else "jar")
    ensures r.Success? && (a.parent.None? || HasCoordinates(a.parent.value)) ==> HasCoordinates(r.value)
  {
    if (pom.groupId.None? || pom.version.None?) && a.parent.None? then Failure(NullPointer)
    else
      var groupId := if pom.groupId.Some? then pom.groupId else a.parent.value.groupId;
      var version := if pom.version.Some? then pom.version else a.parent.value.version;
      var seeded := if version.Some? then a.properties["project.version" := version.value] else a.properties - {"project.version"};
      Success(a.(artifactId := pom.artifactId, groupId := groupId, version := version,
                 packaging := Some(pom.packaging.GetOr("jar")), properties := PutAll(seeded, pom.properties)))
  }

  /** artifactFromElement followed by template(dependency.version, properties). */
  function TemplatedEntry(ctx: Context, properties: map<string, string>, e: Element): (r: Result<Artifact, Exception>)
    ensures r.Success? ==> r.value == FromElement(e).(version := r.value.version)
    ensures r.Success? ==> (r.value.version.Some? <==> "version" in e)
    ensures r.Failure? ==> r.error == OutOfFuel
  {
    var entry := FromElement(e);
    var version :- Templated(entry.version, properties, ctx.env, ctx.sys, ctx.passes);
    Success(entry.(version := version))
  }

  /** One management entry (lines 273-281): an `import` is resolved and its management appended, any other entry itself. */
  function ManageStep(ctx: Context, cur: Artifact, ancestors: seq<Artifact>, e: Element, fuel: nat): (r: Result<Artifact, Exception>)
    ensures r.Success? ==> r.value == cur.(dependencyManagement := r.value.dependencyManagement)
    ensures r.Success? ==> cur.dependencyManagement <= r.value.dependencyManagement
    ensures r.Success? && NoImport(cur.dependencyManagement) ==> NoImport(r.value.dependencyManagement)
    ensures r.Success? && Text(e, "scope") != Some("import") ==>
      var entry := TemplatedEntry(ctx, AllProperties(cur, ancestors + [cur]), e);
      entry.Success? && r.value.dependencyManagement == cur.dependencyManagement + [entry.value]
    decreases fuel, 1, 0, 0
  {
    var dependency :- TemplatedEntry(ctx, AllProperties(cur, ancestors + [cur]), e);
    if dependency.scope == Some("import") then
      var imported :- Resolve(ctx, dependency, ancestors + [cur], fuel);
      Success(cur.(dependencyManagement := cur.dependencyManagement + imported.dependencyManagement))
    else Success(cur.(dependencyManagement := cur.dependencyManagement + [dependency]))
  }

  /** The management loop (lines 267-283) from the i-th entry on. */
  function ManageFrom(ctx: Context, cur: Artifact, ancestors: seq<Artifact>, ms: seq<Element>, i: nat, fuel: nat): (r: Result<Artifact, Exception>)
    ensures r.Success? ==> r.value == cur.(dependencyManagement := r.value.dependencyManagement)
    ensures r.Success? ==> cur.dependencyManagement <= r.value.dependencyManagement
    ensures r.Success? && NoImport(cur.dependencyManagement) ==> NoImport(r.value.dependencyManagement)
    decreases fuel, 2, 0, |ms| - i
  {
    if i >= |ms| then Success(cur)
    else
      var next :- ManageStep(ctx, cur, ancestors, ms[i], fuel);
      ManageFrom(ctx, next, ancestors, ms, i + 1, fuel)
  }

  /** The dependencies loop (lines 285-293) from the i-th entry on: each entry, version templated, is appended. */
  function DependFrom(ctx: Context, cur: Artifact, ancestors: seq<Artifact>, ds: seq<Element>, i: nat): (r: Result<Artifact, Exception>)
    requires i <= |ds|
    ensures r.Success? ==> r.value == cur.(dependencies := r.value.dependencies)
    ensures r.Success? ==> cur.dependencies <= r.value.dependencies && |r.value.dependencies| == |cur.dependencies| + |ds| - i
    ensures r.Failure? ==> r.error == OutOfFuel
    decreases |ds| - i
  {
    if i == |ds| then Success(cur)
    else
      var dependency :- TemplatedEntry(ctx, AllProperties(cur, ancestors + [cur]), ds[i]);
      DependFrom(ctx, cur.(dependencies := cur.dependencies + [dependency]), ancestors, ds, i + 1)
  }

  /**
   * One level of the parent-chain loop (lines 298-305). h is the chain root first, as the
   * levels stand now; level j - 1 is walked from its k-th dependency. Each dependency is
   * managed against the artifact with the chain as it stands, and resolved again when that
   * changed its version; a managed version that is null throws.
   */
  function ReconcileEntries(ctx: Context, cur: Artifact, h: seq<Artifact>, ancestors: seq<Artifact>, j: nat, k: nat, fuel: nat)
    : (r: Result<seq<Artifact>, Exception>)
    requires 0 < j <= |h|
    ensures r.Success? ==> |r.value| == |h|
    decreases fuel, 1, 0, |h[j - 1].dependencies| - k
  {
    var level := h[j - 1];
    if k >= |level.dependencies| then Success(h)
    else
      var dependency := level.dependencies[k];
      var stack := ancestors + [cur.(parent := Chain(h))];
      var managed := Managed(dependency, stack);
      if managed.version.None? then Failure(NullPointer)
      else
        var updated :- if managed.version != dependency.version then Resolve(ctx, managed, stack, fuel) else Success(managed);
        ReconcileEntries(ctx, cur, h[j - 1 := level.(dependencies := level.dependencies[k := updated])], ancestors, j, k + 1, fuel)
  }

  /** The parent-chain loop (lines 295-306) over the j lowest levels, nearest first; then the rebuilt chain is the parent. */
  function ReconcileLevels(ctx: Context, cur: Artifact, h: seq<Artifact>, ancestors: seq<Artifact>, j: nat, fuel: nat)
    : (r: Result<Artifact, Exception>)
    requires j <= |h|
    ensures r.Success? ==> r.value == cur.(parent := r.value.parent)
    decreases fuel, 2, j, 0
  {
    if j == 0 then Success(cur.(parent := Chain(h)))
    else
      var next :- ReconcileEntries(ctx, cur, h, ancestors, j, 0, fuel);
      ReconcileLevels(ctx, cur, next, ancestors, j - 1, fuel)
  }

  /** The last loop (lines 308-311) from the k-th dependency on: manage it, then resolve it. */
  function FinalFrom(ctx: Context, cur: Artifact, ancestors: seq<Artifact>, k: nat, fuel: nat): (r: Result<Artifact, Exception>)
    ensures r.Success? ==> r.value == cur.(dependencies := r.value.dependencies)
    ensures r.Success? ==> |r.value.dependencies| == |cur.dependencies|
    ensures r.Success? && (forall i :: 0 <= i < k && i < |cur.dependencies| ==> cur.dependencies[i].scope.Some?) ==>
      AllScoped(r.value.dependencies)
    decreases fuel, 1, 0, |cur.dependencies| - k
  {
    if k >= |cur.dependencies| then Success(cur)
    else
      var managed := Managed(cur.dependencies[k], ancestors + [cur]);
      var withManaged := cur.(dependencies := cur.dependencies[k := managed]);
      var resolved :- Resolve(ctx, managed, ancestors + [withManaged], fuel);
      FinalFrom(ctx, cur.(dependencies := cur.dependencies[k := resolved]), ancestors, k + 1, fuel)
  }

  /** Lines 295-306 when the artifact has a parent: the whole chain, nearest level first. */
  function ReconcileChain(ctx: Context, cur: Artifact, ancestors: seq<Artifact>, fuel: nat): (r: Result<Artifact, Exception>)
    ensures r.Success? ==> r.value == cur.(parent := r.value.parent)
    decreases fuel, 3, 0, 0
  {
    if cur.parent.Some? then
      var h := Hierarchy(cur.parent.value);
      ReconcileLevels(ctx, cur, h, ancestors, |h|, fuel)
    else Success(cur)
  }

  /** resolve from line 239 on: everything after the parent is known. */
  function FromPom(ctx: Context, a: Artifact, pom: Pom, ancestors: seq<Artifact>, fuel: nat): (r: Result<Artifact, Exception>)
    ensures r.Success? ==> KeepsDeclaration(a, r.value)
    ensures r.Success? && (a.parent.None? || HasCoordinates(a.parent.value)) ==> HasCoordinates(r.value)
    ensures r.Success? && NoImport(a.dependencyManagement) ==> NoImport(r.value.dependencyManagement)
    ensures r.Success? ==> AllScoped(r.value.dependencies)
    ensures r.Success? ==> r.value.artifactId == pom.artifactId && |r.value.dependencies| == |a.dependencies| + |pom.dependencies|
    decreases fuel, 4, 0, 0
  {
    var adopted :- Adopt(a, pom);
    var managed :- ManageFrom(ctx, adopted, ancestors, pom.management, 0, fuel);
    var depending :- DependFrom(ctx, managed, ancestors, pom.dependencies, 0);
    var reconciled :- ReconcileChain(ctx, depending, ancestors, fuel);
    FinalFrom(ctx, reconciled, ancestors, 0, fuel)
  }

  /**
   * resolve(artifact, artifacts). A resolved artifact keeps its scope, classifier and
   * optional flag; it has groupId, version and packaging when its parent, if any, had them;
   * `import` entries never reach its management; every dependency has a scope; and the POM's
   * dependencies are appended to the ones it had.
   */
  function Resolve(ctx: Context, a: Artifact, ancestors: seq<Artifact>, fuel: nat): (r: Result<Artifact, Exception>)
    ensures r.Success? ==> KeepsDeclaration(a, r.value)
    ensures r.Success? && (a.parent.None? || HasCoordinates(a.parent.value)) ==> HasCoordinates(r.value)
    ensures r.Success? && NoImport(a.dependencyManagement) ==> NoImport(r.value.dependencyManagement)
    ensures r.Success? ==> AllScoped(r.value.dependencies)
    ensures r.Success? ==> var pom := PomOf(ctx, a);
      pom.Success? && r.value.artifactId == pom.value.artifactId
      && |r.value.dependencies| == |a.dependencies| + |pom.value.dependencies|
    decreases fuel, 0, 0, 0
  {
    if fuel == 0 then Failure(OutOfFuel)
    else
      var pom :- PomOf(ctx, a);
      var withParent :- WithParent(ctx, a, pom, ancestors, fuel - 1);
      FromPom(ctx, withParent, pom, ancestors, fuel - 1)
  }

  // ---------------------------------------------------------------------------
  // Properties of resolve

  /** The chain loop starts from the parent chain as it is: rebuilding the hierarchy gives the parent back. */
  lemma {:induction false} ChainOfHierarchy(p: Artifact)
    ensures Chain(Hierarchy(p)) == Some(p)
    decreases p
  {
    var h := Hierarchy(p);
    assert h[..|h| - 1] == if p.parent.Some? then Hierarchy(p.parent.value) else [];
    if p.parent.Some? {
      ChainOfHierarchy(p.parent.value);
    }
  }

  /** Resolving with no repository serving the POM fails with "Download failed" and the POM's path. */
  lemma MissingPomFails(ctx: Context, a: Artifact, ancestors: seq<Artifact>, fuel: nat, g: string, id: string, v: string)
    requires fuel > 0 && a.groupId == Some(g) && a.artifactId == Some(id) && a.version == Some(v)
    requires ArtifactPath(g, id, v, "pom") !in ctx.poms
    ensures Resolve(ctx, a, ancestors, fuel) == Failure(IllegalArgument("Download failed " + ToString(ArtifactPath(g, id, v, "pom"))))
  {
  }

  /**
   * Without a POM property of that name, `project.version` holds the version the artifact ends
   * up with; a POM property of that name overrides it.
   */
  lemma ProjectVersionSeeded(a: Artifact, pom: Pom)
    requires Adopt(a, pom).Success? && Adopt(a, pom).value.version.Some?
    ensures var r := Adopt(a, pom).value;
      (forall i :: 0 <= i < |pom.properties| ==> pom.properties[i].0 != "project.version") ==>
        "project.version" in r.properties && r.properties["project.version"] == r.version.value
  {
    var r := Adopt(a, pom).value;
    if forall i :: 0 <= i < |pom.properties| ==> pom.properties[i].0 != "project.version" {
      PutAllKeeps(a.properties["project.version" := r.version.value], pom.properties, "project.version");
    }
  }

  /** The POM's last definition of a property is the one the artifact keeps. */
  lemma PomPropertyWins(a: Artifact, pom: Pom, i: nat)
    requires Adopt(a, pom).Success? && i < |pom.properties|
    requires forall j :: i < j < |pom.properties| ==> pom.properties[j].0 != pom.properties[i].0
    ensures pom.properties[i].0 in Adopt(a, pom).value.properties
    ensures Adopt(a, pom).value.properties[pom.properties[i].0] == pom.properties[i].1
  {
    var version := Adopt(a, pom).value.version;
    var seeded := if version.Some? then a.properties["project.version" := version.value] else a.properties - {"project.version"};
    PutAllLastWins(seeded, pom.properties, i);
  }

  /** An `import` entry is resolved and contributes its own management, in order, instead of itself. */
  lemma ImportContributesManagement(ctx: Context, cur: Artifact, ancestors: seq<Artifact>, e: Element, fuel: nat)
    returns (imported: Artifact)
    requires ManageStep(ctx, cur, ancestors, e, fuel).Success? && Text(e, "scope") == Some("import")
    ensures var entry := TemplatedEntry(ctx, AllProperties(cur, ancestors + [cur]), e);
      entry.Success? && Resolve(ctx, entry.value, ancestors + [cur], fuel) == Success(imported)
    ensures ManageStep(ctx, cur, ancestors, e, fuel).value.dependencyManagement == cur.dependencyManagement + imported.dependencyManagement
  {
    var entry := TemplatedEntry(ctx, AllProperties(cur, ancestors + [cur]), e);
    imported := Resolve(ctx, entry.value, ancestors + [cur], fuel).value;
  }

  /** The management only grows: allProperties does not read it, so every entry sees the same properties. */
  lemma ManagementIgnoredByProperties(a: Artifact, ancestors: seq<Artifact>, ms: seq<Artifact>)
    ensures AllProperties(a.(dependencyManagement := ms), ancestors + [a.(dependencyManagement := ms)]) ==
            AllProperties(a, ancestors + [a])
  {
    var b := a.(dependencyManagement := ms);
    assert OwnProperties(b) == OwnProperties(a);
    assert (ancestors + [b])[..|ancestors|] == ancestors == (ancestors + [a])[..|ancestors|];
    assert AllProperties(b, ancestors) == AllProperties(a, ancestors) by {
      AllPropertiesOwnOnly(a, b, ancestors);
    }
  }

  /** allProperties reads an artifact only through its own properties and its parent's. */
  lemma {:induction false} AllPropertiesOwnOnly(a: Artifact, b: Artifact, ds: seq<Artifact>)
    requires OwnProperties(a) == OwnProperties(b)
    ensures AllProperties(a, ds) == AllProperties(b, ds)
    decreases |ds|
  {
    if |ds| > 0 {
      AllPropertiesOwnOnly(a, b, ds[..|ds| - 1]);
    }
  }

  /** One turn of the management loop. */
  lemma ManageFromStep(ctx: Context, cur: Artifact, ancestors: seq<Artifact>, ms: seq<Element>, i: nat, fuel: nat,
                       step: Result<Artifact, Exception>)
    requires i < |ms| && step == ManageStep(ctx, cur, ancestors, ms[i], fuel)
    ensures step.Failure? ==> ManageFrom(ctx, cur, ancestors, ms, i, fuel) == Failure(step.error)
    ensures step.Success? ==> ManageFrom(ctx, cur, ancestors, ms, i, fuel) == ManageFrom(ctx, step.value, ancestors, ms, i + 1, fuel)
  {
  }

  /** A successful management entry that is not an import appends itself, templated, and leaves the properties alone. */
  lemma NonImportAppends(ctx: Context, cur: Artifact, ancestors: seq<Artifact>, e: Element, fuel: nat,
                         step: Result<Artifact, Exception>)
    requires step == ManageStep(ctx, cur, ancestors, e, fuel) && step.Success? && Text(e, "scope") != Some("import")
    ensures var entry := TemplatedEntry(ctx, AllProperties(cur, ancestors + [cur]), e);
      entry.Success? && step.value.dependencyManagement == cur.dependencyManagement + [entry.value]
    ensures AllProperties(step.value, ancestors + [step.value]) == AllProperties(cur, ancestors + [cur])
  {
    var next := step.value;
    ManagementIgnoredByProperties(cur, ancestors, next.dependencyManagement);
    assert next == cur.(dependencyManagement := next.dependencyManagement);
  }

  /**
   * One turn of the management loop over an entry that is not an import: the loop goes on from the
   * artifact with that entry appended, whose properties are unchanged, and the final management holds the entry.
   */
  lemma ManagementTurn(ctx: Context, cur: Artifact, ancestors: seq<Artifact>, ms: seq<Element>, i: nat, fuel: nat,
                       r: Artifact) returns (next: Artifact)
    requires i < |ms| && ManageFrom(ctx, cur, ancestors, ms, i, fuel) == Success(r)
    requires Text(ms[i], "scope") != Some("import")
    ensures ManageFrom(ctx, next, ancestors, ms, i + 1, fuel) == Success(r)
    ensures AllProperties(next, ancestors + [next]) == AllProperties(cur, ancestors + [cur])
    ensures |next.dependencyManagement| == |cur.dependencyManagement| + 1
    ensures var entry := TemplatedEntry(ctx, AllProperties(cur, ancestors + [cur]), ms[i]);
      entry.Success? && |cur.dependencyManagement| < |r.dependencyManagement| && r.dependencyManagement[|cur.dependencyManagement|] == entry.value
  {
    var step := ManageStep(ctx, cur, ancestors, ms[i], fuel);
    ManageFromStep(ctx, cur, ancestors, ms, i, fuel, step);
    NonImportAppends(ctx, cur, ancestors, ms[i], fuel, step);
    next := step.value;
    assert next.dependencyManagement <= r.dependencyManagement;
  }

  /** From position base on, dm holds exactly the entries ms[i..], in order, each templated with the given properties. */
  ghost predicate AppendsTemplated(ctx: Context, properties: map<string, string>, ms: seq<Element>, i: nat, dm: seq<Artifact>, base: nat)
    decreases |ms| - i
  {
    if i >= |ms| then |dm| == base
    else
      && base < |dm|
      && TemplatedEntry(ctx, properties, ms[i]).Success?
      && dm[base] == TemplatedEntry(ctx, properties, ms[i]).value
      && AppendsTemplated(ctx, properties, ms, i + 1, dm, base + 1)
  }

  /** AppendsTemplated, position by position. */
  lemma {:induction false} AppendsTemplatedAt(ctx: Context, properties: map<string, string>, ms: seq<Element>, i: nat, dm: seq<Artifact>, base: nat)
    requires i <= |ms| && AppendsTemplated(ctx, properties, ms, i, dm, base)
    ensures |dm| == base + |ms| - i
    ensures forall j :: i <= j < |ms| ==>
      TemplatedEntry(ctx, properties, ms[j]).Success? && dm[base + j - i] == TemplatedEntry(ctx, properties, ms[j]).value
    decreases |ms| - i
  {
    if i < |ms| {
      AppendsTemplatedAt(ctx, properties, ms, i + 1, dm, base + 1);
      forall j | i < j < |ms|
        ensures dm[base + j - i] == TemplatedEntry(ctx, properties, ms[j]).value
      {
        assert base + j - i == base + 1 + j - (i + 1);
      }
    }
  }

  /**
   * Without `import` entries, the management loop appends every remaining entry, version templated
   * with the artifact's properties, in document order after the management it already had.
   */
  lemma {:induction false} ManagementAppendedInOrder(ctx: Context, cur: Artifact, ancestors: seq<Artifact>, ms: seq<Element>, i: nat, fuel: nat,
                                                     properties: map<string, string>, r: Artifact)
    requires i < |ms| && ManageFrom(ctx, cur, ancestors, ms, i, fuel) == Success(r)
    requires properties == AllProperties(cur, ancestors + [cur])
    requires forall j :: i <= j < |ms| ==> Text(ms[j], "scope") != Some("import")
    ensures AppendsTemplated(ctx, properties, ms, i, r.dependencyManagement, |cur.dependencyManagement|)
    decreases |ms| - i
  {
    var next := ManagementTurn(ctx, cur, ancestors, ms, i, fuel, r);
    if i + 1 < |ms| {
      ManagementAppendedInOrder(ctx, next, ancestors, ms, i + 1, fuel, properties, r);
    }
  }

  // ---------------------------------------------------------------------------
  // resolve as the Java code runs it: field updates and loops, each proved against its function

  /** One turn of the dependencies loop. */
  lemma DependFromUnfold(ctx: Context, cur: Artifact, ancestors: seq<Artifact>, ds: seq<Element>, i: nat)
    requires i < |ds|
    ensures var entry := TemplatedEntry(ctx, AllProperties(cur, ancestors + [cur]), ds[i]);
      DependFrom(ctx, cur, ancestors, ds, i) ==
        if entry.Failure? then Failure(entry.error)
        else DependFrom(ctx, cur.(dependencies := cur.dependencies + [entry.value]), ancestors, ds, i + 1)
  {
  }

  /** One turn of the inner parent-chain loop, given what the turn gives. */
  lemma ReconcileStep(ctx: Context, cur: Artifact, h: seq<Artifact>, ancestors: seq<Artifact>, j: nat, k: nat, fuel: nat,
                      step: Result<seq<Artifact>, Exception>)
    requires 0 < j <= |h| && k < |h[j - 1].dependencies|
    requires var dependency := h[j - 1].dependencies[k];
      var stack := ancestors + [cur.(parent := Chain(h))];
      var managed := Managed(dependency, stack);
      var updated := if managed.version != dependency.version then Resolve(ctx, managed, stack, fuel) else Success(managed);
      step == if managed.version.None? then Failure(NullPointer)
              else if updated.Failure? then Failure(updated.error)
              else Success(h[j - 1 := h[j - 1].(dependencies := h[j - 1].dependencies[k := updated.value])])
    ensures step.Failure? ==> ReconcileEntries(ctx, cur, h, ancestors, j, k, fuel) == Failure(step.error)
    ensures step.Success? ==> (|step.value| == |h| &&
      ReconcileEntries(ctx, cur, h, ancestors, j, k, fuel) == ReconcileEntries(ctx, cur, step.value, ancestors, j, k + 1, fuel))
  {
  }

  /** One turn of the outer parent-chain loop, given what the level gives. */
  lemma ReconcileLevelsStep(ctx: Context, cur: Artifact, h: seq<Artifact>, ancestors: seq<Artifact>, j: nat, fuel: nat,
                            step: Result<seq<Artifact>, Exception>)
    requires 0 < j <= |h| && step == ReconcileEntries(ctx, cur, h, ancestors, j, 0, fuel)
    ensures step.Failure? ==> ReconcileLevels(ctx, cur, h, ancestors, j, fuel) == Failure(step.error)
    ensures step.Success? ==> ReconcileLevels(ctx, cur, h, ancestors, j, fuel) == ReconcileLevels(ctx, cur, step.value, ancestors, j - 1, fuel)
  {
  }

  /** One turn of the last loop. */
  lemma FinalFromUnfold(ctx: Context, cur: Artifact, ancestors: seq<Artifact>, k: nat, fuel: nat)
    requires k < |cur.dependencies|
    ensures var managed := Managed(cur.dependencies[k], ancestors + [cur]);
      var resolved := Resolve(ctx, managed, ancestors + [cur.(dependencies := cur.dependencies[k := managed])], fuel);
      FinalFrom(ctx, cur, ancestors, k, fuel) ==
        if resolved.Failure? then Failure(resolved.error)
        else FinalFrom(ctx, cur.(dependencies := cur.dependencies[k := resolved.value]), ancestors, k + 1, fuel)
  {
  }

  /** Putting the pairs from the i-th on is putting the i-th, then the rest. */
  lemma PutAllUnfold(m: map<string, string>, pairs: seq<(string, string)>, i: nat)
    requires i < |pairs|
    ensures PutAll(m, pairs[i..]) == PutAll(m[pairs[i].0 := pairs[i].1], pairs[i + 1..])
  {
    assert pairs[i..][1..] == pairs[i + 1..];
  }

  /** Lines 239-265 as statements: the coordinates, their defaults, `project.version`, then the properties one by one. */
  method AdoptPom(a: Artifact, pom: Pom) returns (r: Result<Artifact, Exception>)
    ensures r == Adopt(a, pom)
  {
    var artifact := a.(artifactId := pom.artifactId, groupId := pom.groupId, version := pom.version, packaging := pom.packaging);
    if artifact.groupId.None? {
      if artifact.parent.None? {
        return Failure(NullPointer);
      }
      artifact := artifact.(groupId := artifact.parent.value.groupId);
    }
    if artifact.version.None? {
      if artifact.parent.None? {
        return Failure(NullPointer);
      }
      artifact := artifact.(version := artifact.parent.value.version);
    }
    if artifact.packaging.None? {
      artifact := artifact.(packaging := Some("jar"));
    }
    var properties := if artifact.version.Some? then artifact.properties["project.version" := artifact.version.value]
                      else artifact.properties - {"project.version"};
    ghost var seeded := properties;
    var i := 0;
    while i < |pom.properties|
      invariant i <= |pom.properties|
      invariant PutAll(properties, pom.properties[i..]) == PutAll(seeded, pom.properties)
    {
      PutAllUnfold(properties, pom.properties, i);
      properties := properties[pom.properties[i].0 := pom.properties[i].1];
      i := i + 1;
    }
    return Success(artifact.(properties := properties));
  }

  /** One management entry, lines 273-281. */
  method ManageEntry(ctx: Context, cur: Artifact, ancestors: seq<Artifact>, e: Element, fuel: nat)
    returns (r: Result<Artifact, Exception>)
    ensures r == ManageStep(ctx, cur, ancestors, e, fuel)
    decreases fuel, 1
  {
    var dependency := FromElement(e);
    var version := Template(dependency.version, AllProperties(cur, ancestors + [cur]), ctx.env, ctx.sys, ctx.passes);
    if version.Failure? {
      return Failure(version.error);
    }
    dependency := dependency.(version := version.value);
    if dependency.scope == Some("import") {
      var imported := ResolveArtifact(ctx, dependency, ancestors + [cur], fuel);
      if imported.Failure? {
        return Failure(imported.error);
      }
      return Success(cur.(dependencyManagement := cur.dependencyManagement + imported.value.dependencyManagement));
    }
    return Success(cur.(dependencyManagement := cur.dependencyManagement + [dependency]));
  }

  /** The management loop, lines 267-283. */
  method CollectManagement(ctx: Context, cur: Artifact, ancestors: seq<Artifact>, ms: seq<Element>, fuel: nat)
    returns (r: Result<Artifact, Exception>)
    ensures r == ManageFrom(ctx, cur, ancestors, ms, 0, fuel)
    decreases fuel, 2
  {
    ghost var target := ManageFrom(ctx, cur, ancestors, ms, 0, fuel);
    var artifact := cur;
    var i := 0;
    while i < |ms|
      invariant i <= |ms|
      invariant ManageFrom(ctx, artifact, ancestors, ms, i, fuel) == target
    {
      var next := ManageEntry(ctx, artifact, ancestors, ms[i], fuel);
      ManageFromStep(ctx, artifact, ancestors, ms, i, fuel, next);
      if next.Failure? {
        return Failure(next.error);
      }
      artifact := next.value;
      i := i + 1;
    }
    return Success(artifact);
  }

  /** The dependencies loop, lines 285-293. */
  method CollectDependencies(ctx: Context, cur: Artifact, ancestors: seq<Artifact>, ds: seq<Element>)
    returns (r: Result<Artifact, Exception>)
    ensures r == DependFrom(ctx, cur, ancestors, ds, 0)
  {
    var artifact := cur;
    var i := 0;
    while i < |ds|
      invariant i <= |ds|
      invariant DependFrom(ctx, artifact, ancestors, ds, i) == DependFrom(ctx, cur, ancestors, ds, 0)
    {
      DependFromUnfold(ctx, artifact, ancestors, ds, i);
      var dependency := FromElement(ds[i]);
      var version := Template(dependency.version, AllProperties(artifact, ancestors + [artifact]), ctx.env, ctx.sys, ctx.passes);
      if version.Failure? {
        return Failure(version.error);
      }
      artifact := artifact.(dependencies := artifact.dependencies + [dependency.(version := version.value)]);
      i := i + 1;
    }
    return Success(artifact);
  }

  /** One dependency of the parent-chain loop: managed, and resolved again when its version changed. */
  method ReconcileOne(ctx: Context, cur: Artifact, levels: seq<Artifact>, ancestors: seq<Artifact>, j: nat, k: nat, fuel: nat)
    returns (r: Result<seq<Artifact>, Exception>)
    requires 0 < j <= |levels| && k < |levels[j - 1].dependencies|
    ensures var dependency := levels[j - 1].dependencies[k];
      var stack := ancestors + [cur.(parent := Chain(levels))];
      var managed := Managed(dependency, stack);
      var updated := if managed.version != dependency.version then Resolve(ctx, managed, stack, fuel) else Success(managed);
      r == if managed.version.None? then Failure(NullPointer)
           else if updated.Failure? then Failure(updated.error)
           else Success(levels[j - 1 := levels[j - 1].(dependencies := levels[j - 1].dependencies[k := updated.value])])
    decreases fuel, 1
  {
    var dependency := levels[j - 1].dependencies[k];
    var view := cur.(parent := Chain(levels));
    var managed := Manage(dependency, ancestors + [view]);
    if managed.version.None? {
      return Failure(NullPointer);
    }
    if managed.version != dependency.version {
      var resolved := ResolveArtifact(ctx, managed, ancestors + [view], fuel);
      if resolved.Failure? {
        return Failure(resolved.error);
      }
      managed := resolved.value;
    }
    return Success(levels[j - 1 := levels[j - 1].(dependencies := levels[j - 1].dependencies[k := managed])]);
  }

  /** One level of the parent-chain loop, lines 298-305: every dependency of level j - 1. */
  method ReconcileLevel(ctx: Context, cur: Artifact, levels: seq<Artifact>, ancestors: seq<Artifact>, j: nat, fuel: nat)
    returns (r: Result<seq<Artifact>, Exception>)
    requires 0 < j <= |levels|
    ensures r == ReconcileEntries(ctx, cur, levels, ancestors, j, 0, fuel)
    decreases fuel, 2
  {
    ghost var target := ReconcileEntries(ctx, cur, levels, ancestors, j, 0, fuel);
    var current := levels;
    var k := 0;
    while k < |current[j - 1].dependencies|
      invariant |current| == |levels|
      invariant ReconcileEntries(ctx, cur, current, ancestors, j, k, fuel) == target
    {
      var next := ReconcileOne(ctx, cur, current, ancestors, j, k, fuel);
      ReconcileStep(ctx, cur, current, ancestors, j, k, fuel, next);
      if next.Failure? {
        return Failure(next.error);
      }
      current := next.value;
      k := k + 1;
    }
    return Success(current);
  }

  /** The parent-chain loop, lines 295-306: from the nearest parent to the root. */
  method ReconcileParents(ctx: Context, cur: Artifact, ancestors: seq<Artifact>, fuel: nat)
    returns (r: Result<Artifact, Exception>)
    ensures r == ReconcileChain(ctx, cur, ancestors, fuel)
    decreases fuel, 3
  {
    if cur.parent.None? {
      return Success(cur);
    }
    ghost var target := ReconcileChain(ctx, cur, ancestors, fuel);
    var levels := Hierarchy(cur.parent.value);
    var j: nat := |levels|;
    while j > 0
      invariant j <= |levels|
      invariant ReconcileLevels(ctx, cur, levels, ancestors, j, fuel) == target
    {
      var next := ReconcileLevel(ctx, cur, levels, ancestors, j, fuel);
      ReconcileLevelsStep(ctx, cur, levels, ancestors, j, fuel, next);
      if next.Failure? {
        return Failure(next.error);
      }
      levels := next.value;
      j := j - 1;
    }
    return Success(cur.(parent := Chain(levels)));
  }

  /** One dependency of the last loop: managed in the list, then resolved. */
  method ManageAndResolveOne(ctx: Context, cur: Artifact, ancestors: seq<Artifact>, k: nat, fuel: nat)
    returns (r: Result<Artifact, Exception>)
    requires k < |cur.dependencies|
    ensures var managed := Managed(cur.dependencies[k], ancestors + [cur]);
      var resolved := Resolve(ctx, managed, ancestors + [cur.(dependencies := cur.dependencies[k := managed])], fuel);
      r == if resolved.Failure? then Failure(resolved.error) else Success(cur.(dependencies := cur.dependencies[k := resolved.value]))
    decreases fuel, 1
  {
    var managed := Manage(cur.dependencies[k], ancestors + [cur]);
    var artifact := cur.(dependencies := cur.dependencies[k := managed]);
    var resolved := ResolveArtifact(ctx, managed, ancestors + [artifact], fuel);
    if resolved.Failure? {
      return Failure(resolved.error);
    }
    assert artifact.dependencies[k := resolved.value] == cur.dependencies[k := resolved.value];
    return Success(artifact.(dependencies := artifact.dependencies[k := resolved.value]));
  }

  /** The last loop, lines 308-311: each dependency is managed in the list, then resolved. */
  method ManageAndResolve(ctx: Context, cur: Artifact, ancestors: seq<Artifact>, fuel: nat)
    returns (r: Result<Artifact, Exception>)
    ensures r == FinalFrom(ctx, cur, ancestors, 0, fuel)
    decreases fuel, 2
  {
    var artifact := cur;
    var k := 0;
    while k < |artifact.dependencies|
      invariant FinalFrom(ctx, artifact, ancestors, k, fuel) == FinalFrom(ctx, cur, ancestors, 0, fuel)
    {
      FinalFromUnfold(ctx, artifact, ancestors, k, fuel);
      var next := ManageAndResolveOne(ctx, artifact, ancestors, k, fuel);
      if next.Failure? {
        return Failure(next.error);
      }
      artifact := next.value;
      k := k + 1;
    }
    return Success(artifact);
  }

  /** resolve(artifact, artifacts): the artifact's value after the call, or the exception it throws. */
  method ResolveArtifact(ctx: Context, a: Artifact, ancestors: seq<Artifact>, fuel: nat) returns (r: Result<Artifact, Exception>)
    ensures r == Resolve(ctx, a, ancestors, fuel)
    decreases fuel, 0
  {
    if fuel == 0 {
      return Failure(OutOfFuel);
    }
    var document := PomOf(ctx, a);
    if document.Failure? {
      return Failure(document.error);
    }
    var pom := document.value;
    var artifact := a;
    if |pom.parents| == 1 {
      var parent := ResolveArtifact(ctx, FromElement(pom.parents[0]).(packaging := Some("pom")), ancestors + [a], fuel - 1);
      if parent.Failure? {
        return Failure(parent.error);
      }
      artifact := artifact.(parent := Some(parent.value));
    }
    assert WithParent(ctx, a, pom, ancestors, fuel - 1) == Success(artifact);
    r := ApplyPom(ctx, artifact, pom, ancestors, fuel - 1);
  }

  /** resolve from line 239 on. */
  method ApplyPom(ctx: Context, a: Artifact, pom: Pom, ancestors: seq<Artifact>, fuel: nat) returns (r: Result<Artifact, Exception>)
    ensures r == FromPom(ctx, a, pom, ancestors, fuel)
    decreases fuel, 4
  {
    r := AdoptPom(a, pom);
    if r.Failure? {
      return;
    }
    r := CollectManagement(ctx, r.value, ancestors, pom.management, fuel);
    if r.Failure? {
      return;
    }
    r := CollectDependencies(ctx, r.value, ancestors, pom.dependencies);
    if r.Failure? {
      return;
    }
    r := ReconcileParents(ctx, r.value, ancestors, fuel);
    if r.Failure? {
      return;
    }
    r := ManageAndResolve(ctx, r.value, ancestors, fuel);
  }
}
