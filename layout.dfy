/**
 * Where an artifact lives in a Maven repository: `group/with/slashes/artifactId/version/
 * artifactId-version.extension`, built with Paths.get and Path.resolve as the source does,
 * and the choice of the local repository directory.
 */
module Layout {
  import opened Wrappers
  import opened JavaLang
  import opened JavaPaths
  import opened Templating

  /** The file name `artifactId-version.extension`. */
  function FileName(artifactId: string, version: string, extension: string): string {
    artifactId + "-" + version + "." + extension
  }

  /**
   * Paths.get(groupId.replace(".", "/")).resolve(artifactId).resolve(version)
   *   .resolve(artifactId + "-" + version + "." + extension)
   */
  function ArtifactPath(groupId: string, artifactId: string, version: string, extension: string): Path {
    Resolve(Resolve(Resolve(Get(Replace(groupId, '.', '/')), artifactId), version), FileName(artifactId, version, extension))
  }

  /**
   * MavenExecutor.Maven.path(dependency, extension): a null groupId, artifactId or version
   * throws a NullPointerException; a null extension is concatenated as the text "null".
   */
  function MavenPath(groupId: Option<string>, artifactId: Option<string>, version: Option<string>,
                     extension: Option<string>): (r: Result<Path, Exception>)
    ensures r.Failure? <==> groupId.None? || artifactId.None? || version.None?
    ensures r.Failure? ==> r.error == NullPointer
  {
    if groupId.None? || artifactId.None? || version.None? then Failure(NullPointer)
    else Success(ArtifactPath(groupId.value, artifactId.value, version.value, extension.GetOr("null")))
  }

  /** ClassLoaderExperiment.jarPath(groupId, artifactId, version). */
  function JarPath(groupId: Option<string>, artifactId: Option<string>, version: Option<string>): (r: Result<Path, Exception>)
    ensures r == MavenPath(groupId, artifactId, version, Some("jar"))
  {
    if groupId.None? || artifactId.None? || version.None? then Failure(NullPointer)
    else Success(ArtifactPath(groupId.value, artifactId.value, version.value, "jar"))
  }

  /** ClassLoaderExperiment.pomPath(groupId, artifactId, version). */
  function PomPath(groupId: Option<string>, artifactId: Option<string>, version: Option<string>): (r: Result<Path, Exception>)
    ensures r == MavenPath(groupId, artifactId, version, Some("pom"))
  {
    if groupId.None? || artifactId.None? || version.None? then Failure(NullPointer)
    else Success(ArtifactPath(groupId.value, artifactId.value, version.value, "pom"))
  }

  /**
   * ClassLoaderExperiment.pomPath(String): the coordinate split on ':'; fewer than three parts
   * throws ArrayIndexOutOfBoundsException, parts after the third are ignored.
   */
  function PomPathOfCoordinate(artifact: string): (r: Result<Path, Exception>)
    ensures r.Failure? <==> |Split(artifact, ':')| < 3
    ensures r.Failure? ==> r.error == IndexOutOfBounds
  {
    var parts := Split(artifact, ':');
    if |parts| < 3 then Failure(IndexOutOfBounds)
    else Success(ArtifactPath(parts[0], parts[1], parts[2], "pom"))
  }

  // ---------------------------------------------------------------------------
  // Properties of the layout

  /** A group id whose dot-separated parts are all non-empty and free of slashes. */
  predicate WellFormedGroup(groupId: string) {
    '/' !in groupId && forall i :: 0 <= i < |Pieces(groupId, '.')| ==> Pieces(groupId, '.')[i] != ""
  }

  /** A single path name: non-empty and free of slashes. */
  predicate IsName(s: string) {
    s != "" && '/' !in s
  }

  lemma GetName(s: string)
    requires IsName(s)
    ensures Get(s) == Path(false, [s])
  {
    PiecesWithoutSeparator(s, '/');
    NonEmptyOfNonEmpty([s]);
    assert s[0] in s;
  }

  lemma GetGroup(groupId: string)
    requires WellFormedGroup(groupId)
    ensures Get(Replace(groupId, '.', '/')) == Path(false, Pieces(groupId, '.'))
  {
    var g := Replace(groupId, '.', '/');
    PiecesReplace(groupId, '.', '/');
    NonEmptyOfNonEmpty(Pieces(groupId, '.'));
  }

  /**
   * For a well-formed coordinate the path has the names group parts, artifactId, version and
   * file name, and reads as the group with every '.' replaced by '/', then
   * `/artifactId/version/artifactId-version.extension`.
   */
  lemma ArtifactPathLayout(groupId: string, artifactId: string, version: string, extension: string)
    requires WellFormedGroup(groupId) && IsName(artifactId) && IsName(version) && '/' !in extension
    ensures ArtifactPath(groupId, artifactId, version, extension) ==
      Path(false, Pieces(groupId, '.') + [artifactId, version, FileName(artifactId, version, extension)])
    ensures ToString(ArtifactPath(groupId, artifactId, version, extension)) ==
      Replace(groupId, '.', '/') + "/" + artifactId + "/" + version + "/" + FileName(artifactId, version, extension)
  {
    var f := FileName(artifactId, version, extension);
    var groupNames := Pieces(groupId, '.');
    GetGroup(groupId);
    GetName(artifactId);
    GetName(version);
    assert '/' !in f by {
      assert f == artifactId + "-" + version + "." + extension;
    }
    GetName(f);
    assert ArtifactPath(groupId, artifactId, version, extension) == Path(false, groupNames + [artifactId] + [version] + [f]);
    assert groupNames + [artifactId] + [version] + [f] == groupNames + [artifactId, version, f];
    JoinSnoc(groupNames, artifactId, '/');
    JoinSnoc(groupNames + [artifactId], version, '/');
    JoinSnoc(groupNames + [artifactId] + [version], f, '/');
    PiecesReplace(groupId, '.', '/');
    JoinPieces(Replace(groupId, '.', '/'), '/');
    assert groupNames != [];
  }

  /** The extension is the last thing in the path's string form; nothing before it depends on it. */
  lemma ExtensionIsSuffix(groupId: string, artifactId: string, version: string, extension: string)
    requires '/' !in extension
    ensures ToString(ArtifactPath(groupId, artifactId, version, extension)) ==
      ToString(ArtifactPath(groupId, artifactId, version, "")) + extension
  {
    var dir := Resolve(Resolve(Get(Replace(groupId, '.', '/')), artifactId), version);
    var stem := artifactId + "-" + version + ".";
    assert FileName(artifactId, version, extension) == stem + extension;
    assert FileName(artifactId, version, "") == stem;
    ResolveAppend(dir, stem, extension);
  }

  /** pomPath and jarPath name the same directory and file stem, and differ only in `pom` against `jar`. */
  lemma PomAndJarDifferInExtension(groupId: string, artifactId: string, version: string)
    ensures var pom := ToString(ArtifactPath(groupId, artifactId, version, "pom"));
      var jar := ToString(ArtifactPath(groupId, artifactId, version, "jar"));
      |pom| == |jar| >= 3 && pom[..|pom| - 3] == jar[..|jar| - 3] &&
      pom[|pom| - 3..] == "pom" && jar[|jar| - 3..] == "jar"
  {
    ExtensionIsSuffix(groupId, artifactId, version, "pom");
    ExtensionIsSuffix(groupId, artifactId, version, "jar");
  }

  /** pomPath("g:a:v") is pomPath(g, a, v) for parts free of ':' and a non-empty version. */
  lemma PomPathOfCoordinateSplits(groupId: string, artifactId: string, version: string)
    requires ':' !in groupId && ':' !in artifactId && ':' !in version && version != ""
    ensures PomPathOfCoordinate(groupId + ":" + artifactId + ":" + version) == PomPath(Some(groupId), Some(artifactId), Some(version))
  {
    var parts := [groupId, artifactId, version];
    assert Join(parts, ':') == groupId + ":" + artifactId + ":" + version by {
      assert parts[1..] == [artifactId, version];
      assert parts[1..][1..] == [version];
      assert Join([artifactId, version], ':') == artifactId + [':'] + version;
      assert Join(parts, ':') == groupId + [':'] + (artifactId + [':'] + version);
    }
    SplitJoin(parts, ':');
  }

  // ---------------------------------------------------------------------------
  // The local repository directory

  /**
   * MavenExecutor.Maven.localRepository: a non-blank `<localRepository>` of the settings file,
   * templated over the environment and the system properties, else `<m2>/repository`.
   * setting is None when there is no settings file or no such element.
   */
  function MavenLocalRepository(userHomeM2: Path, setting: Option<string>, env: map<string, string>,
                                sys: map<string, string>, fuel: nat): (r: Result<Path, Exception>)
    ensures (setting.None? || IsBlank(setting.value)) ==> r == Success(Resolve(userHomeM2, "repository"))
    ensures r.Failure? ==> r.error == OutOfFuel
  {
    if setting.Some? && !IsBlank(setting.value) then
      var text :- Templated(setting, map[], env, sys, fuel);
      Success(Get(text.value))
    else Success(Resolve(userHomeM2, "repository"))
  }

  /** A non-blank setting without tokens is taken as the path as it is. */
  lemma MavenLocalRepositoryVerbatim(userHomeM2: Path, setting: string, env: map<string, string>,
                                     sys: map<string, string>, fuel: nat)
    requires !IsBlank(setting) && NoToken(PropertyToken, setting) && fuel >= 1
    ensures MavenLocalRepository(userHomeM2, Some(setting), env, sys, fuel) == Success(Get(setting))
  {
    TemplateTokenFree(setting, map[], env, sys, fuel);
  }

  /**
   * ClassLoaderExperiment.localRepository: the same decision, with the text templated by
   * template(text) (environment pass, then system properties). setting is None unless the
   * settings file has exactly one `<localRepository>` element.
   */
  function MinimavenLocalRepository(userHomeM2: Path, setting: Option<string>, env: map<string, string>,
                                    sys: map<string, string>): (r: Path)
    ensures (setting.None? || IsBlank(setting.value)) ==> r == Resolve(userHomeM2, "repository")
    ensures setting.Some? && !IsBlank(setting.value) ==> r == Get(TemplateText(setting.value, env, sys))
  {
    if setting.Some? && !IsBlank(setting.value) then Get(TemplateText(setting.value, env, sys))
    else Resolve(userHomeM2, "repository")
  }

  /**
   * A setting that is one environment token, `${env.NAME}` or, as the pattern is written, any
   * other separator after `env`, gives the path named by that variable's value.
   */
  lemma MinimavenLocalRepositoryFromEnvironment(userHomeM2: Path, c: char, k: string, env: map<string, string>,
                                               sys: map<string, string>)
    requires Templating.IsName(k) && !IsLineTerminator(c)
    requires k in env && !IsBlank(env[k]) && NoToken(PropertyToken, env[k])
    ensures MinimavenLocalRepository(userHomeM2, Some("${env" + [c] + k + "}"), env, sys) == Get(env[k])
  {
    var setting := "${env" + [c] + k + "}";
    assert !IsBlank(setting) by {
      assert !IsWhitespace(setting[0]);
    }
    TemplateTextAnySeparator(c, k, env, sys);
  }
}
