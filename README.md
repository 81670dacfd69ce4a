# mvnx in Dafny

mvnx runs a Java program straight from a Maven coordinate. It takes `groupId:artifactId:version`, reads the artifact's POM and, recursively, the POMs of its parents, its `import`-scoped management and its dependencies. It applies dependency management and property templating on the way. It projects the resolved tree onto a classpath and loads the main class from that classpath. An older experiment, `ClassLoaderExperiment`, does the same with a simpler walk.

This project models the deterministic core of that process and proves properties about it:

- **Property templating** (`Templating`):
  - `Maven.template` scans for `${key}` tokens with the leftmost-match semantics of `Matcher.find`. It looks each key up in the given properties, then the environment, then the system properties; a leading `env.` is stripped. It repeats whole passes until nothing changes.
  - `ClassLoaderExperiment`'s single-pass variants.
- **Dependency management**:
  - `Artifact.manage` over the dependents' hierarchies (`MvnxArtifact`);
  - `manageDependency` over a parent chain (`Minimaven`).
- **The classpath projection** `dependencies(filter)`, in both the `Artifact` and `Dependency` copies. Each is a preorder walk into a `LinkedHashSet` (`LinkedSets`).
- **Identity:** `equals`, `equalsArtifact` and `hashCode` of the three artifact classes.
- **Repository layout** (`Layout`): `path`, `jarPath`, `pomPath` and the `g:a:v` splitter. The choice of the local repository is modelled too.
- **Argument parsing** (`Arguments`): `parseArguments` on an `Executor` class whose fields the parse updates.
- **Resolution** (`MvnxResolution`, `MinimavenProject`, `MinimavenResolution`):
  - `Maven.resolve`, `ClassLoaderExperiment.project` and `projectDependencies`.
  - Each works over a map from repository path to parsed POM in place of downloads and XML.

The supporting modules model the Java library behaviour the code relies on:

- `JavaLang`: `String.split` with a one-character pattern, `String.replace`, `isBlank`, 32-bit `hashCode` arithmetic and `Map.put`;
- `JavaPaths`: Unix `java.nio.file.Path` with `get`, `resolve` and `toString`;
- `LinkedSets`: `LinkedHashSet` as a duplicate-free sequence.

Java `null` is `None`. A map entry whose value is null is an absent key, as `HashMap.get` and `putIfAbsent` treat it. Exceptions are the `Failure` side of a `Result`.

Loops that update state become methods, each proved equal to the function that specifies it:

- the `Matcher` loop (`ReplaceTokens`);
- the template do-while (`Template`);
- `manage`'s loop with `break` (`ScanEntries`, `Manage`);
- the parent-chain while loop (`ManageDependency`);
- the argument loop (`Executor.ParseArguments`);
- the loops of `resolve` (`AdoptPom` … `ResolveArtifact`);
- those of `projectDependencies` (`CollectDependencies`, `UpsertEach`, `RewriteScopes`).

Where a description of the system and the code disagree, the model follows the code:

- `resolve` takes no filter, and the projection alone decides what reaches the classpath.
- The default local repository is the templated `<localRepository>` text of the settings file when it is non-blank, else `.m2/repository`. This holds whether or not the option parser ran.
- `equals` on `mvnx` artifacts and dependencies ignores scope. The minimaven `Dependency.equals` ignores the version and compares the scope.

## Model

| member | source | states |
|---|---|---|
| JavaLang.SplitJoin | src/main/java/io/github/arlol/mvnx/MavenExecutor.java:64 | Splitting on `:` the parts joined with `:` gives the parts back, provided no part contains `:` and the last part is non-empty. |
| JavaLang.SplitWithoutSeparator | src/main/java/io/github/arlol/mvnx/MavenExecutor.java:64 | A string without the separator splits into itself alone. |
| JavaLang.Replace | src/main/java/io/github/arlol/mvnx/MavenExecutor.java:421 | `replace(".", "/")` keeps the length and swaps every occurrence of one character for the other. |
| JavaLang.Int32 | src/main/java/io/github/arlol/mvnx/Artifact.java:48-51 | Java `int` arithmetic: the result lies in the 32-bit range and agrees with the exact value modulo 2^32. |
| JavaLang.StringHash | src/main/java/io/github/arlol/mvnx/Artifact.java:48-51 | `String.hashCode` is the int-wrapped polynomial `31 * h + u` over the string's UTF-16 code units, so it stays in the 32-bit range. |
| JavaLang.CodeUnits | src/main/java/io/github/arlol/mvnx/Artifact.java:48-51 | A character below U+10000 is one code unit. Any other character is a high surrogate then a low surrogate, and the pair decodes back to the character. |
| JavaLang.Utf16 | src/main/java/io/github/arlol/mvnx/Artifact.java:48-51 | A string has at least as many code units as characters, each in the 16-bit range. |
| JavaLang.StringHashSnoc | src/main/java/io/github/arlol/mvnx/Artifact.java:48-51 | One more character is one hash step for a BMP character and two steps, one per surrogate, for any other. |
| JavaLang.StringHashSurrogates | src/main/java/io/github/arlol/mvnx/Artifact.java:48-51 | U+1F600 hashes as its surrogates 0xD83D and 0xDE00, giving 1772899. |
| JavaLang.ObjectsHash | src/main/java/io/github/arlol/mvnx/Artifact.java:48-51 | `Objects.hash` is the int-wrapped polynomial `31 * r + hash(field)` from 1, with 0 for null, so it stays in the 32-bit range. |
| JavaLang.PutAll | src/main/java/io/github/arlol/mvnx/MavenExecutor.java:256-265 | `put` for every pair in order: its keys are the old keys plus the pairs' keys. |
| JavaLang.PutAllKeeps | src/main/java/io/github/arlol/mvnx/MavenExecutor.java:256-265 | A key that no pair puts keeps the value it had. |
| JavaLang.PutAllLastWins | src/main/java/io/github/arlol/mvnx/MavenExecutor.java:256-265 | The last pair that puts a key decides its value. |
| JavaPaths.GetAppend | src/main/java/io/github/arlol/mvnx/MavenExecutor.java:421-423 | `Paths.get(x + t)` for a separator-free `t` extends the last name of `Paths.get(x)` by `t`. |
| JavaPaths.ToStringExtendLast | src/main/java/io/github/arlol/mvnx/MavenExecutor.java:421-423 | Extending the last name of a non-empty path by `t` appends `t` to its string form. |
| JavaPaths.ResolveAppend | src/main/java/io/github/arlol/mvnx/MavenExecutor.java:421-423 | Resolving a name and then appending a slash-free suffix to the string form is resolving the name with the suffix. |
| LinkedSets.Keys | src/main/java/io/github/arlol/mvnx/Artifact.java:28 | The identities a set holds include the identity of each of its elements. |
| LinkedSets.KeysWitness | src/main/java/io/github/arlol/mvnx/Artifact.java:28 | Every identity the set holds belongs to one of its elements. |
| LinkedSets.AddAll | src/main/java/io/github/arlol/mvnx/Artifact.java:33 | `addAll` only appends: the original elements stay in front, in their order. |
| LinkedSets.FirstIndex | src/main/java/io/github/arlol/mvnx/Artifact.java:37 | The position of the first occurrence of an identity in a list is a valid index holding that identity. |
| LinkedSets.AddAllKeys | src/main/java/io/github/arlol/mvnx/Artifact.java:33 | `addAll` adds the identities of its argument and no others. |
| LinkedSets.AddNoDup | src/main/java/io/github/arlol/mvnx/Artifact.java:30 | `add` never introduces two equal elements. |
| LinkedSets.AddAllNoDup | src/main/java/io/github/arlol/mvnx/Artifact.java:33 | `addAll` never introduces two equal elements. |
| LinkedSets.AddAllAddsNew | src/main/java/io/github/arlol/mvnx/Artifact.java:33 | Each element `addAll` adds is new to the set, and its identity occurs in the argument. |
| LinkedSets.AddAllAddsFirst | src/main/java/io/github/arlol/mvnx/Artifact.java:33 | Each element `addAll` adds is the first occurrence of its identity in the argument. |
| LinkedSets.PrefixFirstIndexes | src/main/java/io/github/arlol/mvnx/Artifact.java:33 | Elements added from a prefix of the argument keep, in the whole argument, the first index they have in the prefix. |
| LinkedSets.AddAllKeepsOrder | src/main/java/io/github/arlol/mvnx/Artifact.java:33 | The added elements come in the order of their first occurrences in the argument. |
| LinkedSets.DedupedSpec | src/main/java/io/github/arlol/mvnx/Artifact.java:27-40 | Collecting a list into a fresh set gives elements with no two equal, each the first occurrence of its identity, in list order, with every identity of the list. A property every list element has holds for every set element. |
| LinkedSets.AddAllHead | src/main/java/io/github/arlol/mvnx/Artifact.java:29-31 | Deduplicating a non-empty list keeps its first element first. |
| LinkedSets.AddAllOfAddAll | src/main/java/io/github/arlol/mvnx/Artifact.java:37 | Adding a set built by `addAll` adds what adding the raw list would. |
| LinkedSets.AddAllDedupedStep | src/main/java/io/github/arlol/mvnx/Artifact.java:33-38 | Adding the deduplicated set of a further list to an accumulated set equals adding the two lists concatenated. |
| LinkedSets.AddAllAppend | src/main/java/io/github/arlol/mvnx/Artifact.java:33-38 | Two `addAll` calls in a row add the concatenation of their arguments. |
| LinkedSets.Remove | src/main/java/io/github/arlol/minimaven/ClassLoaderExperiment.java:83 | After `remove`, no element has the removed identity, and the identities held are the old ones minus it. |
| LinkedSets.RemoveNoDup | src/main/java/io/github/arlol/minimaven/ClassLoaderExperiment.java:83 | `remove` keeps a duplicate-free set duplicate-free. |
| LinkedSets.Upsert | src/main/java/io/github/arlol/minimaven/ClassLoaderExperiment.java:82-85 | Add, or remove and re-add: the element ends up last, the identities held are the old ones plus its own, and no duplicate is introduced. |
| LinkedSets.UpsertAbsent | src/main/java/io/github/arlol/minimaven/ClassLoaderExperiment.java:82-85 | Upserting an absent element is `add`. |
| LinkedSets.RemoveAbsent | src/main/java/io/github/arlol/minimaven/ClassLoaderExperiment.java:83 | Removing an absent element changes nothing. |
| LinkedSets.Without | src/main/java/io/github/arlol/minimaven/ClassLoaderExperiment.java:82-85 | Taking out a set of identities leaves exactly the identities not in it. |
| LinkedSets.RemoveIsWithout | src/main/java/io/github/arlol/minimaven/ClassLoaderExperiment.java:83 | `remove` is taking out one identity. |
| LinkedSets.UpsertAllIsLastOccurrences | src/main/java/io/github/arlol/minimaven/ClassLoaderExperiment.java:95-98 | Upserting a list leaves the elements it does not re-add, in order, followed by its elements at their last occurrences. |
| LinkedSets.UpsertAllKeys | src/main/java/io/github/arlol/minimaven/ClassLoaderExperiment.java:95-98 | Upserting adds the identities of the list and no others. |
| LinkedSets.UpsertAllNoDup | src/main/java/io/github/arlol/minimaven/ClassLoaderExperiment.java:95-98 | Upserting never introduces two equal elements. |
| LinkedSets.UpsertAllAppend | src/main/java/io/github/arlol/minimaven/ClassLoaderExperiment.java:113-124 | Upserting one list and then another is upserting their concatenation. |
| LinkedSets.UpsertAllKeepsHead | src/main/java/io/github/arlol/minimaven/ClassLoaderExperiment.java:69-75 | The first element stays first while nothing equal to it is re-added. |
| LinkedSets.UpsertAllSingle | src/main/java/io/github/arlol/minimaven/ClassLoaderExperiment.java:69-75 | Upserting a single element puts it after the elements already there, after removing an equal one. The element is in the set afterwards. |
| Templating.LookupKey | src/main/java/io/github/arlol/mvnx/MavenExecutor.java:345-347 | The lookup key is the token's key with a leading `env.` removed, and is otherwise the key unchanged. |
| Templating.Find | src/main/java/io/github/arlol/mvnx/MavenExecutor.java:341 | `Matcher.find` from a position returns the leftmost match at or after it, and no match starts between the position and that match. |
| Templating.ReplaceTokens | src/main/java/io/github/arlol/mvnx/MavenExecutor.java:338-357 | The find/append loop returns exactly one substitution pass over the text. |
| Templating.TokenFreeUnchanged | src/main/java/io/github/arlol/mvnx/MavenExecutor.java:341-356 | A pass over text without tokens returns the text unchanged. |
| Templating.PropertyTokenMatch | src/main/java/io/github/arlol/mvnx/MavenExecutor.java:52 | `${key}` for a valid key matches as a whole, with the key as group 1. |
| Templating.PropertyTokenAlone | src/main/java/io/github/arlol/mvnx/MavenExecutor.java:343-353 | A text that is one property token becomes its replacement: the value found, or the token written back. |
| Templating.EnvironmentTokenMatch | src/main/java/io/github/arlol/minimaven/ClassLoaderExperiment.java:35 | `${env` plus one character c, a name and `}` matches as a whole with the name as group 1 under the as-written pattern for any c that is not a line terminator, and under the escaped pattern exactly when c is `.`. |
| Templating.MergedProperties | src/main/java/io/github/arlol/mvnx/MavenExecutor.java:328-330 | The lookup map holds exactly the keys of the properties, the environment and the system properties. The properties shadow the environment, and the environment shadows the system properties. |
| Templating.Converge | src/main/java/io/github/arlol/mvnx/MavenExecutor.java:335-359 | A successful do-while ends at a fixed point of one pass; it fails only by running out of passes. |
| Templating.Templated | src/main/java/io/github/arlol/mvnx/MavenExecutor.java:323-362 | A null text gives null; otherwise the result is a fixed point of one pass over the merged map. |
| Templating.Template | src/main/java/io/github/arlol/mvnx/MavenExecutor.java:323-362 | The method with the do-while and the Matcher loop computes `Templated`. |
| Templating.TemplateTokenFree | src/main/java/io/github/arlol/mvnx/MavenExecutor.java:323-362 | Token-free text comes back unchanged after one pass. |
| Templating.TemplateIdempotent | src/main/java/io/github/arlol/mvnx/MavenExecutor.java:335-359 | Templating a templated text returns it at once: `template(template(x)) == template(x)`. |
| Templating.TemplateOneToken | src/main/java/io/github/arlol/mvnx/MavenExecutor.java:343-353 | For a lone token, properties shadow the environment and the environment shadows the system properties. `env.X` is looked up as X, and a key found nowhere is written back with its `env.` prefix. |
| Templating.TemplateUnknownKeyKept | src/main/java/io/github/arlol/mvnx/MavenExecutor.java:335-359 | A token whose lookup key is in neither the properties, the environment nor the system properties comes back from `template` exactly as written, `env.` prefix included. |
| Templating.TemplateEnvironmentVariable | src/main/java/io/github/arlol/mvnx/MavenExecutor.java:345-350 | `${env.X}` for an environment variable X that no property overrides becomes its value. |
| Templating.SelfReferenceStep | src/main/java/io/github/arlol/mvnx/MavenExecutor.java:335-359 | When `k` maps to `a${k}`, one pass over `a...a${k}` adds one more `a`. |
| Templating.SelfReferenceNeverConverges | src/main/java/io/github/arlol/mvnx/MavenExecutor.java:335-359 | With `k` mapped to `a${k}`, no number of passes reaches a fixed point. |
| Templating.TemplateDiverges | src/main/java/io/github/arlol/mvnx/MavenExecutor.java:335-359 | Templating `${k}` with `k` mapped to `a${k}` runs out of any fuel: the source's loop does not terminate. |
| Templating.TemplateProperties | src/main/java/io/github/arlol/minimaven/ClassLoaderExperiment.java:204-223 | The single-pass `template(text, Properties)` is one pass of the property token over the given properties. |
| Templating.TemplateEnvironmentVariables | src/main/java/io/github/arlol/minimaven/ClassLoaderExperiment.java:229-248 | `templateEnvironmentVariables`, with the pattern as written, is one pass of the environment token with the non-blank rule. |
| Templating.TemplateEnvironmentVariablesStrict | src/main/java/io/github/arlol/minimaven/ClassLoaderExperiment.java:229-248 | The same pass with the `.` of the pattern escaped. |
| Templating.TemplateTextPasses | src/main/java/io/github/arlol/minimaven/ClassLoaderExperiment.java:200-202 | `template(text)` is the environment pass, with its pattern as written, followed by the system-property pass over its output. |
| Templating.PropertiesInsertedVerbatim | src/main/java/io/github/arlol/minimaven/ClassLoaderExperiment.java:208-218 | `${k}` becomes exactly the value of k, with tokens in that value not re-expanded; an unknown key keeps the literal token. |
| Templating.EnvironmentVariableReplaced | src/main/java/io/github/arlol/minimaven/ClassLoaderExperiment.java:229-248 | Only a present, non-blank environment value replaces `${env.NAME}`; otherwise the token stays as `${env.NAME}`. This holds for the pattern as written and for the escaped one. |
| Templating.EnvironmentThenSystemProperties | src/main/java/io/github/arlol/minimaven/ClassLoaderExperiment.java:200-202 | In `template(text)`, an environment value that holds `${p}` gets p's system property, because the environment pass runs first. The same holds with the escaped pattern. |
| Templating.TemplateTextAnySeparator | src/main/java/io/github/arlol/minimaven/ClassLoaderExperiment.java:200-202 | In `template(text)` as written, `${env}` followed by any non-line-terminator and a name NAME gives NAME's non-blank, token-free environment value. |
| Templating.TemplateTextStrictNeedsDot | src/main/java/io/github/arlol/minimaven/ClassLoaderExperiment.java:200-202 | With the dot escaped, `${envXNAME}` (X a word character other than `.`) is left to the system-property pass, which sees the key `envXNAME`. |
| Templating.UnescapedDotAcceptsAnySeparator | src/main/java/io/github/arlol/minimaven/ClassLoaderExperiment.java:35 | As written, `${envXNAME}` for any non-line-terminator X is an environment token: it is replaced by NAME's value, or rewritten to `${env.NAME}`. |
| Templating.EnvironmentTokenAlone | src/main/java/io/github/arlol/minimaven/ClassLoaderExperiment.java:233-244 | A text that is one environment token, with any separator after `env`, becomes its replacement. |
| Templating.EscapedDotRequiresDot | src/main/java/io/github/arlol/minimaven/ClassLoaderExperiment.java:35 | With the dot escaped, `${envXNAME}` for X other than `.` is left as it is. |
| Layout.MavenPath | src/main/java/io/github/arlol/mvnx/MavenExecutor.java:420-424 | `path` fails with NullPointerException exactly when groupId, artifactId or version is null. |
| Layout.JarPath | src/main/java/io/github/arlol/minimaven/ClassLoaderExperiment.java:152-155 | `jarPath` is the artifact path with extension `jar`. |
| Layout.PomPath | src/main/java/io/github/arlol/minimaven/ClassLoaderExperiment.java:169-172 | `pomPath` is the artifact path with extension `pom`. |
| Layout.PomPathOfCoordinate | src/main/java/io/github/arlol/minimaven/ClassLoaderExperiment.java:161-167 | The coordinate split on `:` fails with ArrayIndexOutOfBoundsException exactly when it has fewer than three parts. |
| Layout.GetName | src/main/java/io/github/arlol/mvnx/MavenExecutor.java:421 | `Paths.get` of a slash-free non-empty name is the relative path of that one name. |
| Layout.GetGroup | src/main/java/io/github/arlol/mvnx/MavenExecutor.java:421 | `Paths.get` of a well-formed group with `.` replaced by `/` has the group's parts as its names. |
| Layout.ArtifactPathLayout | src/main/java/io/github/arlol/mvnx/MavenExecutor.java:420-424 | For a well-formed coordinate, the names are the group parts, artifactId, version and `artifactId-version.ext`. The string form is the group with every `.` replaced by `/`, then those names, joined by `/`. |
| Layout.ExtensionIsSuffix | src/main/java/io/github/arlol/mvnx/MavenExecutor.java:423 | The extension is the last thing in the path's string form, after a prefix that does not depend on it. |
| Layout.PomAndJarDifferInExtension | src/main/java/io/github/arlol/minimaven/ClassLoaderExperiment.java:152-172 | `pomPath` and `jarPath` name the same directory and file stem, and differ only in `pom` against `jar`. |
| Layout.PomPathOfCoordinateSplits | src/main/java/io/github/arlol/minimaven/ClassLoaderExperiment.java:161-167 | `pomPath("g:a:v")` is `pomPath(g, a, v)` for parts free of `:` and a non-empty version. |
| Layout.MavenLocalRepository | src/main/java/io/github/arlol/mvnx/MavenExecutor.java:212-221 | Without a setting, or with a blank one, the local repository is `repository` under `.m2`; the only failure is running out of template passes. |
| Layout.MavenLocalRepositoryVerbatim | src/main/java/io/github/arlol/mvnx/MavenExecutor.java:216-217 | A non-blank setting without tokens is taken as the path as it is. |
| Layout.MinimavenLocalRepository | src/main/java/io/github/arlol/minimaven/ClassLoaderExperiment.java:186-198 | The same decision, with the text templated by `template(text)` as written: the environment pass, then the system-property pass. |
| Layout.MinimavenLocalRepositoryFromEnvironment | src/main/java/io/github/arlol/minimaven/ClassLoaderExperiment.java:186-198 | A setting that is one environment token, with `.` or any other separator after `env`, gives the path named by that variable's non-blank, token-free value. |
| MvnxArtifact.HashCode | src/main/java/io/github/arlol/mvnx/MavenExecutor.java:512-514 | `hashCode` is a 32-bit int computed from the five identity fields. |
| MvnxArtifact.EqualsIsEqualsArtifactAndVersion | src/main/java/io/github/arlol/mvnx/MavenExecutor.java:506-531 | `equals` is `equalsArtifact` plus an equal version. |
| MvnxArtifact.EqualsIffSameId | src/main/java/io/github/arlol/mvnx/MavenExecutor.java:517-531 | `equals` holds exactly between artifacts with the same groupId, artifactId, classifier, packaging and version. |
| MvnxArtifact.EqualsNullOrOtherClass | src/main/java/io/github/arlol/mvnx/MavenExecutor.java:521-526 | `equals` is false for null and for an object of another class. |
| MvnxArtifact.EqualsEquivalence | src/main/java/io/github/arlol/mvnx/MavenExecutor.java:517-531 | `equals` is reflexive, symmetric and transitive. |
| MvnxArtifact.HashCodeConsistent | src/main/java/io/github/arlol/mvnx/MavenExecutor.java:512-531 | Equal artifacts have equal hash codes. |
| MvnxArtifact.EqualsArtifactEquivalence | src/main/java/io/github/arlol/mvnx/MavenExecutor.java:506-509 | `equalsArtifact` is an equivalence relation that ignores version and scope. |
| MvnxArtifact.Hierarchy | src/main/java/io/github/arlol/mvnx/MavenExecutor.java:459-466 | The hierarchy is non-empty, ends with the artifact itself, and starts with the root; each level is the parent of the next. |
| MvnxArtifact.PropertyMaps | src/main/java/io/github/arlol/mvnx/MavenExecutor.java:468-478 | The list of the artifacts' properties maps, one per artifact, in order. |
| MvnxArtifact.LastDefiner | src/main/java/io/github/arlol/mvnx/MavenExecutor.java:468-478 | The index found is the last map that defines the key. |
| MvnxArtifact.MergeLookup | src/main/java/io/github/arlol/mvnx/MavenExecutor.java:468-478 | Consecutive `putAll`s define a key when some map does, with the value of the last map that does. |
| MvnxArtifact.MergeSnoc | src/main/java/io/github/arlol/mvnx/MavenExecutor.java:473-476 | Merging one more map lets it override everything before it. |
| MvnxArtifact.OwnPropertiesMergeHierarchy | src/main/java/io/github/arlol/mvnx/MavenExecutor.java:468-478 | `allProperties(List.of())` merges the hierarchy's properties root first, so the nearest definition wins. |
| MvnxArtifact.OwnPropertiesOf | src/main/java/io/github/arlol/mvnx/MavenExecutor.java:474-476 | The merged properties of each dependent, in order. |
| MvnxArtifact.AllPropertiesMerge | src/main/java/io/github/arlol/mvnx/MavenExecutor.java:468-478 | `allProperties(dependents)` merges the artifact's own merged properties first and each dependent's after it. |
| MvnxArtifact.DependentPropertyWins | src/main/java/io/github/arlol/mvnx/MavenExecutor.java:474-476 | A property that a dependent defines, and no later dependent does, takes that dependent's value. |
| MvnxArtifact.OwnPropertyKept | src/main/java/io/github/arlol/mvnx/MavenExecutor.java:470-473 | A property that no dependent defines keeps the artifact's own value, or stays absent. |
| MvnxArtifact.Matching | src/main/java/io/github/arlol/mvnx/MavenExecutor.java:485 | Every entry kept `equalsArtifact` the artifact. |
| MvnxArtifact.FirstSet | src/main/java/io/github/arlol/mvnx/MavenExecutor.java:486-496 | The index found holds the first set field, and no earlier entry has one. |
| MvnxArtifact.FirstSetUnique | src/main/java/io/github/arlol/mvnx/MavenExecutor.java:486-496 | The first set field is unique: no other index has that property. |
| MvnxArtifact.FirstNonNullPrefix | src/main/java/io/github/arlol/mvnx/MavenExecutor.java:486-496 | A prefix sees the first set field when it lies in the prefix, and nothing otherwise. |
| MvnxArtifact.FirstNonNullAppend | src/main/java/io/github/arlol/mvnx/MavenExecutor.java:483-496 | The first non-null value of a concatenation comes from the first part when that part has one. |
| MvnxArtifact.FirstNonNullStep | src/main/java/io/github/arlol/mvnx/MavenExecutor.java:487-492 | When one more entry is seen, a field already found stays, and otherwise the entry's value is taken. |
| MvnxArtifact.FirstNonNullFound | src/main/java/io/github/arlol/mvnx/MavenExecutor.java:493-495 | A field found in a prefix is the field found in the whole list, which justifies the `break`. |
| MvnxArtifact.ScanEntries | src/main/java/io/github/arlol/mvnx/MavenExecutor.java:486-496 | The loop with `break` returns the first non-null version and the first non-null scope among the entries. |
| MvnxArtifact.Manage | src/main/java/io/github/arlol/mvnx/MavenExecutor.java:480-504 | `manage` returns the artifact with version and scope set as `Managed` says. |
| MvnxArtifact.ManagedFields | src/main/java/io/github/arlol/mvnx/MavenExecutor.java:480-504 | After manage, the scope is never null: it is the first non-null scope among the matching entries, or `compile`. The version is the first non-null version, or unchanged. No other field changes. |
| MvnxArtifact.MatchingAppend | src/main/java/io/github/arlol/mvnx/MavenExecutor.java:483-485 | Filtering distributes over concatenation. |
| MvnxArtifact.CandidatesCons | src/main/java/io/github/arlol/mvnx/MavenExecutor.java:483-484 | The first dependent's entries come before every later dependent's. |
| MvnxArtifact.CandidatesRootFirst | src/main/java/io/github/arlol/mvnx/MavenExecutor.java:483-484 | Within one dependent, the parent's hierarchy comes first, then the dependent's dependencies, then its dependencyManagement. |
| MvnxArtifact.FirstDependentWins | src/main/java/io/github/arlol/mvnx/MavenExecutor.java:483-499 | A version that the first dependent's hierarchy supplies wins over any later dependent's. |
| MvnxArtifact.MatchingIgnoresVersionAndScope | src/main/java/io/github/arlol/mvnx/MavenExecutor.java:485 | The candidates do not depend on the version or scope that manage writes. |
| MvnxArtifact.ManageIdempotent | src/main/java/io/github/arlol/mvnx/MavenExecutor.java:480-504 | Managing twice against the same dependents changes nothing more. |
| MvnxArtifact.ChildDependenciesIsAddAll | src/main/java/io/github/arlol/mvnx/MavenExecutor.java:451-455 | The children loop adds what a walk of the accepted children would. |
| MvnxArtifact.ChildStepIsAddAll | src/main/java/io/github/arlol/mvnx/MavenExecutor.java:451-455 | One more turn of the children loop keeps its result equal to adding the walk of the accepted children so far. |
| MvnxArtifact.DependenciesIsDedupedWalk | src/main/java/io/github/arlol/mvnx/MavenExecutor.java:443-457 | `dependencies(filter)` is the preorder walk with every element after the first equal one dropped. |
| MvnxArtifact.WalkAccepted | src/main/java/io/github/arlol/mvnx/MavenExecutor.java:445-454 | Every element of the walk is accepted by the filter. |
| MvnxArtifact.WalkChildrenAccepted | src/main/java/io/github/arlol/mvnx/MavenExecutor.java:451-455 | Every element of the children's walk is accepted by the filter. |
| MvnxArtifact.DependenciesSpec | src/main/java/io/github/arlol/mvnx/MavenExecutor.java:443-457 | The projection holds only accepted artifacts, no two of them equal. Each is the first occurrence of its identity in the preorder walk, in walk order, and every identity of the walk is present. |
| MvnxArtifact.AcceptedSelfFirst | src/main/java/io/github/arlol/mvnx/MavenExecutor.java:445-447 | An artifact the filter accepts comes first in its own projection. |
| MvnxArtifact.ParentBeforeChildren | src/main/java/io/github/arlol/mvnx/MavenExecutor.java:448-455 | The parent is projected whether or not the filter accepts it, and what the artifact and its parent contribute comes before anything from the dependencies. |
| MvnxArtifact.RejectedChildIgnored | src/main/java/io/github/arlol/mvnx/MavenExecutor.java:452 | Removing a dependency that the filter rejects does not change what the children loop collects. |
| MvnxArtifact.SamePrefixSameChildren | src/main/java/io/github/arlol/mvnx/MavenExecutor.java:451-455 | Two artifacts with the same first n dependencies collect the same set over them. |
| MvnxDependency.HashCode | src/main/java/io/github/arlol/mvnx/Dependency.java:41-44 | `hashCode` is a 32-bit int computed from the five identity fields. |
| MvnxDependency.EqualsIsEqualsArtifactAndVersion | src/main/java/io/github/arlol/mvnx/Dependency.java:36-61 | `equals` is `equalsArtifact` plus an equal version, and holds exactly between equal identities. |
| MvnxDependency.EqualsArtifactIgnoresVersion | src/main/java/io/github/arlol/mvnx/Dependency.java:36-39 | `equalsArtifact` ignores the version. |
| MvnxDependency.HashCodeConsistent | src/main/java/io/github/arlol/mvnx/Dependency.java:41-61 | Equal dependencies have equal hash codes. |
| MvnxDependency.Dependencies | src/main/java/io/github/arlol/mvnx/Dependency.java:19-34 | The projection fails only with NullPointerException. |
| MvnxDependency.ChildDependencies | src/main/java/io/github/arlol/mvnx/Dependency.java:27-31 | The children loop fails only with NullPointerException. |
| MvnxDependency.ChildDependenciesIsAddAll | src/main/java/io/github/arlol/mvnx/Dependency.java:27-31 | The children loop fails where the walk of the accepted children does, and otherwise adds what it visits. |
| MvnxDependency.DependenciesIsDedupedWalk | src/main/java/io/github/arlol/mvnx/Dependency.java:19-34 | `dependencies(filter)` fails exactly when the walk meets a null project, and is otherwise the walk deduplicated. |
| MvnxDependency.WalkAccepted | src/main/java/io/github/arlol/mvnx/Dependency.java:21-30 | Every element of a successful walk is accepted by the filter. |
| MvnxDependency.WalkChildrenAccepted | src/main/java/io/github/arlol/mvnx/Dependency.java:27-31 | Every element of a successful children's walk is accepted by the filter. |
| MvnxDependency.DependenciesSpec | src/main/java/io/github/arlol/mvnx/Dependency.java:19-34 | A successful projection holds only accepted dependencies, no two of them equal. Each is the first occurrence of its identity in the walk, in walk order. |
| MvnxDependency.AcceptedSelfFirst | src/main/java/io/github/arlol/mvnx/Dependency.java:21-23 | A dependency that the filter accepts comes first in its own projection. |
| MvnxDependency.NullProjectThrows | src/main/java/io/github/arlol/mvnx/Dependency.java:24 | A dependency without a project cannot be projected: NullPointerException. |
| MvnxDependency.ParentUnconditional | src/main/java/io/github/arlol/mvnx/Dependency.java:24-26 | The project's parent is projected whether or not the filter accepts it: its failure is the dependency's failure, and what it collects is collected. |
| MvnxDependency.RejectedChildIgnored | src/main/java/io/github/arlol/mvnx/Dependency.java:28 | A rejected dependency is never descended into, so even one without a project does no harm. |
| MvnxDependency.ChildStepAgrees | src/main/java/io/github/arlol/mvnx/Dependency.java:27-31 | Equal children reached from equal sets add the same elements in one turn of the children loop. |
| MvnxDependency.SamePrefixSameChildren | src/main/java/io/github/arlol/mvnx/Dependency.java:27-31 | Two projects with the same first n dependencies collect the same set over them. |
| MinimavenDependency.HashCode | src/main/java/io/github/arlol/minimaven/Dependency.java:14-17 | `hashCode` is a 32-bit int computed from artifactId, classifier, groupId, packaging and scope. |
| MinimavenDependency.EqualsIffSameId | src/main/java/io/github/arlol/minimaven/Dependency.java:19-31 | `equals` holds exactly between dependencies with the same groupId, artifactId, classifier, packaging and scope. |
| MinimavenDependency.EqualsIgnoresVersion | src/main/java/io/github/arlol/minimaven/Dependency.java:27-30 | A dependency equals itself with any other version. |
| MinimavenDependency.EqualsSeesScope | src/main/java/io/github/arlol/minimaven/Dependency.java:27-30 | A dependency never equals itself with a different scope. |
| MinimavenDependency.EqualsEquivalence | src/main/java/io/github/arlol/minimaven/Dependency.java:19-31 | `equals` is reflexive, symmetric and transitive, and false for null or another class. |
| MinimavenDependency.HashCodeConsistent | src/main/java/io/github/arlol/minimaven/Dependency.java:14-31 | `hashCode` hashes the fields that `equals` compares, so equal dependencies hash alike. |
| Minimaven.FirstDecisive | src/main/java/io/github/arlol/minimaven/ClassLoaderExperiment.java:133-135 | The index found is the first entry that matches or whose filter throws, or the end. |
| Minimaven.FindManaged | src/main/java/io/github/arlol/minimaven/ClassLoaderExperiment.java:133-135 | `findFirst` fails only with NullPointerException, and an entry it finds has the dependency's groupId and artifactId. |
| Minimaven.ManagedBy | src/main/java/io/github/arlol/minimaven/ClassLoaderExperiment.java:129-146 | Searching a chain fails only with NullPointerException. |
| Minimaven.ManageDependency | src/main/java/io/github/arlol/minimaven/ClassLoaderExperiment.java:129-146 | The while loop over the parent chain computes `ManagedBy`. |
| Minimaven.ManagedKeepsWhatIsSet | src/main/java/io/github/arlol/minimaven/ClassLoaderExperiment.java:136-141 | manageDependency never overwrites a set version or scope, and changes no other field. |
| Minimaven.NearestProjectWins | src/main/java/io/github/arlol/minimaven/ClassLoaderExperiment.java:130-144 | For a dependency without a version (or scope), the first matching entry of the project itself that sets one decides it, whatever the parents say. |
| Minimaven.ManagedIgnoresPackagingAndClassifier | src/main/java/io/github/arlol/minimaven/ClassLoaderExperiment.java:134 | Only groupId and artifactId are matched on: packaging and classifier make no difference. |
| Minimaven.FindManagedIgnoresPackagingAndClassifier | src/main/java/io/github/arlol/minimaven/ClassLoaderExperiment.java:134 | The lookup in one project ignores the dependency's packaging and classifier. |
| Minimaven.UnmanagedUnchanged | src/main/java/io/github/arlol/minimaven/ClassLoaderExperiment.java:129-146 | A chain in which no entry matches or throws leaves the dependency as it is. |
| MinimavenProject.TemplatedVersion | src/main/java/io/github/arlol/minimaven/ClassLoaderExperiment.java:345-347 | Templating keeps a version present exactly when it was present. |
| MinimavenProject.ManagementEntry | src/main/java/io/github/arlol/minimaven/ClassLoaderExperiment.java:340-347 | A management entry has the element's groupId, artifactId and scope, and null packaging and classifier. |
| MinimavenProject.ManagementEntries | src/main/java/io/github/arlol/minimaven/ClassLoaderExperiment.java:338-349 | One entry per element, in document order. |
| MinimavenProject.DependencyEntry | src/main/java/io/github/arlol/minimaven/ClassLoaderExperiment.java:357-366 | A dependency entry has the element's groupId, artifactId and scope and null packaging and classifier. A given version is templated. Without a version the entry is managed against the project so far, and only that can throw (NullPointerException). |
| MinimavenProject.DependencyEntries | src/main/java/io/github/arlol/minimaven/ClassLoaderExperiment.java:355-368 | The loop succeeds exactly when every entry does, and then gives one dependency per entry, in order. |
| MinimavenProject.Build | src/main/java/io/github/arlol/minimaven/ClassLoaderExperiment.java:306-369 | The project's parent is the one that was read for it. |
| MinimavenProject.ProjectOf | src/main/java/io/github/arlol/minimaven/ClassLoaderExperiment.java:274-372 | A path the repository does not serve throws IllegalArgumentException("Download failed"). |
| MinimavenProject.ProjectOfBuilds | src/main/java/io/github/arlol/minimaven/ClassLoaderExperiment.java:294-372 | The project read from a repository path is `Build` applied to its POM and the parent it reads. |
| MinimavenProject.BuildInherits | src/main/java/io/github/arlol/minimaven/ClassLoaderExperiment.java:306-318 | groupId and version are the project's own first elements, or else the parent's. |
| MinimavenProject.BuildFails | src/main/java/io/github/arlol/minimaven/ClassLoaderExperiment.java:306-318 | A POM without an artifactId element, or without groupId or version and without a parent, fails. |
| MinimavenProject.ProjectVersionSeeded | src/main/java/io/github/arlol/minimaven/ClassLoaderExperiment.java:320-332 | `project.version` holds the final version unless a `<properties>` element sets it. Every pair of the first `<properties>` element is a property, and the last one wins. |
| MinimavenProject.BuildDependencies | src/main/java/io/github/arlol/minimaven/ClassLoaderExperiment.java:352-369 | Every dependency has the groupId, artifactId and scope its entry gives, and a templated version when the entry has one. There is one dependency per entry. |
| MinimavenResolution.RootDependency | src/main/java/io/github/arlol/minimaven/ClassLoaderExperiment.java:70-74 | The root entry has the project's groupId, artifactId and version, and every other field is null. |
| MinimavenResolution.Narrowed | src/main/java/io/github/arlol/minimaven/ClassLoaderExperiment.java:99-112 | Under a test or provided direct dependency, a null or compile scope becomes that scope; nothing else changes. |
| MinimavenResolution.Rewrite | src/main/java/io/github/arlol/minimaven/ClassLoaderExperiment.java:99-112 | The rewrite is element-wise `Narrowed`, with the same length. |
| MinimavenResolution.RewriteScopes | src/main/java/io/github/arlol/minimaven/ClassLoaderExperiment.java:99-112 | The two forEach loops compute `Rewrite`. |
| MinimavenResolution.ManagedByAll | src/main/java/io/github/arlol/minimaven/ClassLoaderExperiment.java:117-119 | Managing against projects in turn fails only with NullPointerException. |
| MinimavenResolution.ManageInTurn | src/main/java/io/github/arlol/minimaven/ClassLoaderExperiment.java:117-119 | The consecutive manageDependency calls compute `ManagedByAll`. |
| MinimavenResolution.Items | src/main/java/io/github/arlol/minimaven/ClassLoaderExperiment.java:113-119 | The stream filter and the managing fail only with NullPointerException. |
| MinimavenResolution.UpsertEach | src/main/java/io/github/arlol/minimaven/ClassLoaderExperiment.java:113-124 | The filtered forEach loop upserts each managed item in turn. |
| MinimavenResolution.CollectDependencies | src/main/java/io/github/arlol/minimaven/ClassLoaderExperiment.java:66-127 | The LinkedHashSet-based method computes `ProjectDependencies`. |
| MinimavenResolution.CollectInherited | src/main/java/io/github/arlol/minimaven/ClassLoaderExperiment.java:68-87 | The start of projectDependencies computes `WithParent`. |
| MinimavenResolution.CollectChild | src/main/java/io/github/arlol/minimaven/ClassLoaderExperiment.java:89-124 | The body of the for loop computes `ChildStep`. |
| MinimavenResolution.ChildDependenciesUpserts | src/main/java/io/github/arlol/minimaven/ClassLoaderExperiment.java:88-125 | The for loop's result is its start with some sequence of elements upserted. |
| MinimavenResolution.ChildStepUpserts | src/main/java/io/github/arlol/minimaven/ClassLoaderExperiment.java:89-124 | One turn of the for loop upserts some sequence of elements. |
| MinimavenResolution.WithParentUpserts | src/main/java/io/github/arlol/minimaven/ClassLoaderExperiment.java:76-87 | The parent's part of the walk upserts into the start. |
| MinimavenResolution.ProjectDependenciesUpserts | src/main/java/io/github/arlol/minimaven/ClassLoaderExperiment.java:66-127 | Everything the walk collects is upserted into its start: the root's coordinates in the outermost call, and nothing otherwise. |
| MinimavenResolution.ProjectDependenciesNoDup | src/main/java/io/github/arlol/minimaven/ClassLoaderExperiment.java:68 | The collection never holds two dependencies that are equal under `Dependency.equals`. |
| MinimavenResolution.RootFirst | src/main/java/io/github/arlol/minimaven/ClassLoaderExperiment.java:69-75 | The root's coordinates go in first. They stay first unless an equal dependency is re-added, and every other element stands where its last addition put it. |
| MinimavenResolution.ManagedByAllKeepsScope | src/main/java/io/github/arlol/minimaven/ClassLoaderExperiment.java:139-141 | Managing never touches a set scope, against any number of projects. |
| MinimavenResolution.NarrowedItems | src/main/java/io/github/arlol/minimaven/ClassLoaderExperiment.java:99-124 | Under a test or provided dependency, every transitive dependency that is added has a scope other than null, compile, test or provided. |
| MinimavenResolution.RewriteScopesOnly | src/main/java/io/github/arlol/minimaven/ClassLoaderExperiment.java:99-112 | A narrowing scope rewrites exactly the null and compile scopes; any other scope leaves all as they are. |
| MinimavenResolution.CompileCoordinates | src/main/java/io/github/arlol/minimaven/ClassLoaderExperiment.java:56-57 | A coordinate is listed exactly when some null- or compile-scoped dependency has it. |
| MinimavenResolution.ResolveDependenciesSpec | src/main/java/io/github/arlol/minimaven/ClassLoaderExperiment.java:53-59 | The result lists exactly the coordinates of the compile-scoped or unscoped dependencies the walk collects. Each appears once, in the order of its first occurrence, so the first collected dependency's coordinate comes first when it is compile-scoped or unscoped. A coordinate with fewer than three parts throws ArrayIndexOutOfBoundsException. |
| Arguments.WithCoordinate | src/main/java/io/github/arlol/mvnx/MavenExecutor.java:64-67 | Reading the coordinate fails with ArrayIndexOutOfBoundsException exactly when `args[0]` splits into fewer than three parts. Otherwise groupId, artifactId and version are its first three parts, and nothing else changes. |
| Arguments.Options | src/main/java/io/github/arlol/mvnx/MavenExecutor.java:68-89 | The option loop fails only with ArrayIndexOutOfBoundsException. |
| Arguments.OptionsReadsSteps | src/main/java/io/github/arlol/mvnx/MavenExecutor.java:68-89 | Over arguments made of options with their values and unknown arguments, the loop applies the options in order. Each option takes the next argument whatever it says. Then `--` passes everything after it through, options included, and an option standing last throws ArrayIndexOutOfBoundsException. |
| Arguments.StepsOf | src/main/java/io/github/arlol/mvnx/MavenExecutor.java:68-89 | Every argument list, from any position, splits into such steps and an ending: the end, `--` with what follows, or a lone option. |
| Arguments.OptionsSpec | src/main/java/io/github/arlol/mvnx/MavenExecutor.java:68-89 | For every argument list, the loop gives the settings its steps make and the ending's pass-through arguments. It fails exactly when an option it reads has no value after it. |
| Arguments.WithLocalRepository | src/main/java/io/github/arlol/mvnx/MavenExecutor.java:90-92 | A local repository already set is kept. Otherwise only the local repository changes and becomes set; without a setting it is `repository` under `.m2`. |
| Arguments.Parse | src/main/java/io/github/arlol/mvnx/MavenExecutor.java:60-94 | Empty input throws IllegalArgumentException("Missing artifact identifier"), and a short coordinate throws ArrayIndexOutOfBoundsException. After success the local repository is set. |
| Arguments.Executor.constructor | src/main/java/io/github/arlol/mvnx/MavenExecutor.java:154-158 | A fresh executor has an empty artifact, `.m2` under the user's home, `settings.xml` in it, the two default repositories, no local repository, no main class and no pass-through arguments. |
| Arguments.Executor.ParseArguments | src/main/java/io/github/arlol/mvnx/MavenExecutor.java:60-94 | The method succeeds exactly when `Parse` does, and raises the exception `Parse` names. On success, the fields are `Parse`'s result. |
| Arguments.Executor.SetOption | src/main/java/io/github/arlol/mvnx/MavenExecutor.java:69-81 | Reading one option with its value changes exactly the field that option names: the repository list split at commas, the main class, the settings path, or the local repository path for any other option. |
| Arguments.Executor.ReadOptions | src/main/java/io/github/arlol/mvnx/MavenExecutor.java:68-89 | The option loop succeeds exactly when `Options` does, and only fails with an index error from an option that lacks its value. On success the fields are what `Options` computes from the fields before the loop. |
| Arguments.Executor.SetLocalRepository | src/main/java/io/github/arlol/mvnx/MavenExecutor.java:90-92 | Filling in the local repository succeeds exactly when `WithLocalRepository` does and raises the same exception. On success the fields are its result, so a repository given on the command line is kept. |
| Arguments.CoordinateSplit | src/main/java/io/github/arlol/mvnx/MavenExecutor.java:64-67 | `g:a:v`, with parts free of `:` and a non-empty version, sets exactly those three coordinates. |
| Arguments.UnknownArgumentsIgnored | src/main/java/io/github/arlol/mvnx/MavenExecutor.java:86-87 | Arguments the switch does not know, up to the end, change nothing. |
| Arguments.OptionsKeepCoordinate | src/main/java/io/github/arlol/mvnx/MavenExecutor.java:68-89 | The loop never touches the coordinate. The pass-through arguments it leaves are either the ones it started with or everything after some `--`. |
| Arguments.SingleOptions | src/main/java/io/github/arlol/mvnx/MavenExecutor.java:70-85 | Each option given alone after a coordinate sets its field: `--mainClass`, `--repositories` split on `,`, `--settings` and `--`. |
| Arguments.ExplicitLocalRepositoryWins | src/main/java/io/github/arlol/mvnx/MavenExecutor.java:79-81 | An explicit `--localRepository` wins, and the settings file is not consulted. |
| Arguments.DefaultLocalRepository | src/main/java/io/github/arlol/mvnx/MavenExecutor.java:90-92 | Without the option and without a setting, the local repository is `repository` under the `.m2` directory. |
| MvnxResolution.FromElement | src/main/java/io/github/arlol/mvnx/MavenExecutor.java:381-414 | The packaging is the `<type>`, or `jar`. `optional` holds only for the exact text `true`. Version, scope and classifier are the element's. There is no parent and no entries. |
| MvnxResolution.PomOf | src/main/java/io/github/arlol/mvnx/MavenExecutor.java:179-210 | A null groupId, artifactId or version throws NullPointerException. A POM that no repository serves throws IllegalArgumentException("Download failed " + path). |
| MvnxResolution.Chain | src/main/java/io/github/arlol/mvnx/MavenExecutor.java:459-466 | The rebuilt chain is null exactly when the list is empty. |
| MvnxResolution.WithParent | src/main/java/io/github/arlol/mvnx/MavenExecutor.java:231-237 | Only the parent changes. With exactly one `<parent>`, the artifact gets a parent that has groupId, version and packaging; otherwise it is unchanged. |
| MvnxResolution.Adopt | src/main/java/io/github/arlol/mvnx/MavenExecutor.java:239-265 | The POM's artifactId is taken. A missing groupId or version is the parent's, and without a parent a missing one throws NullPointerException. Packaging defaults to `jar`. Scope, classifier, optional and entries are untouched. |
| MvnxResolution.TemplatedEntry | src/main/java/io/github/arlol/mvnx/MavenExecutor.java:274-275 | An entry read from its element, with its version templated; it fails only by running out of passes. |
| MvnxResolution.ManageStep | src/main/java/io/github/arlol/mvnx/MavenExecutor.java:273-281 | An `import` entry is resolved and its management appended; any other entry is appended itself. |
| MvnxResolution.ManageFrom | src/main/java/io/github/arlol/mvnx/MavenExecutor.java:267-283 | The management loop only appends. Without `import` entries in the artifact, none enter from the POM. |
| MvnxResolution.DependFrom | src/main/java/io/github/arlol/mvnx/MavenExecutor.java:285-293 | The dependencies loop appends one entry per element, in order, and changes nothing else. |
| MvnxResolution.ReconcileEntries | src/main/java/io/github/arlol/mvnx/MavenExecutor.java:298-304 | One level of the parent-chain loop keeps the number of levels. |
| MvnxResolution.ReconcileLevels | src/main/java/io/github/arlol/mvnx/MavenExecutor.java:295-306 | The parent-chain loop changes only the artifact's parent. |
| MvnxResolution.FinalFrom | src/main/java/io/github/arlol/mvnx/MavenExecutor.java:308-311 | The last loop changes only the dependencies, keeps their number, and leaves every one of them with a scope. |
| MvnxResolution.ReconcileChain | src/main/java/io/github/arlol/mvnx/MavenExecutor.java:295-306 | Reconciling the chain changes only the artifact's parent. |
| MvnxResolution.FromPom | src/main/java/io/github/arlol/mvnx/MavenExecutor.java:239-312 | A resolved artifact keeps its scope, classifier and optional flag. It has coordinates when its parent had them, keeps `import` out of its management, and has a scope on every dependency. Its dependencies are the ones it had plus one per POM entry. |
| MvnxResolution.Resolve | src/main/java/io/github/arlol/mvnx/MavenExecutor.java:223-313 | The POM exists and its artifactId is taken. Scope, classifier and optional stay. Coordinates are known when the parent's are, no `import` entry is kept, every dependency has a scope, and there is one dependency more per POM entry. |
| MvnxResolution.ChainOfHierarchy | src/main/java/io/github/arlol/mvnx/MavenExecutor.java:296-305 | The chain loop starts from the parent chain as it is: rebuilding the hierarchy gives the parent back. |
| MvnxResolution.MissingPomFails | src/main/java/io/github/arlol/mvnx/MavenExecutor.java:179-210 | Resolving with no repository serving the POM fails with "Download failed" and the POM's path. |
| MvnxResolution.ProjectVersionSeeded | src/main/java/io/github/arlol/mvnx/MavenExecutor.java:254 | Without a POM property of that name, `project.version` holds the version the artifact ends up with; a POM property of that name overrides it. |
| MvnxResolution.PomPropertyWins | src/main/java/io/github/arlol/mvnx/MavenExecutor.java:256-265 | The POM's last definition of a property is the one the artifact keeps. |
| MvnxResolution.ImportContributesManagement | src/main/java/io/github/arlol/mvnx/MavenExecutor.java:276-278 | An `import` entry is resolved and contributes its own management, in order, instead of itself. |
| MvnxResolution.ManagementIgnoredByProperties | src/main/java/io/github/arlol/mvnx/MavenExecutor.java:275 | allProperties does not read the management, so every entry sees the same properties. |
| MvnxResolution.AllPropertiesOwnOnly | src/main/java/io/github/arlol/mvnx/MavenExecutor.java:468-478 | `allProperties` reads an artifact only through its own properties and its parent's. |
| MvnxResolution.NonImportAppends | src/main/java/io/github/arlol/mvnx/MavenExecutor.java:275-281 | A successful entry that is not an import appends itself, version templated with the artifact's properties, and leaves those properties unchanged. |
| MvnxResolution.ManagementTurn | src/main/java/io/github/arlol/mvnx/MavenExecutor.java:272-281 | One turn over an entry that is not an import: the loop goes on from the artifact with the templated entry appended, with the same properties, and the final management holds that entry at the artifact's current length. |
| MvnxResolution.ManagementAppendedInOrder | src/main/java/io/github/arlol/mvnx/MavenExecutor.java:272-281 | Without `import` entries, the loop appends every remaining entry after the management the artifact already had: entry i sits at the next position, version templated with the artifact's properties, followed by the rest in document order (`AppendsTemplated`). |
| MvnxResolution.AppendsTemplatedAt | src/main/java/io/github/arlol/mvnx/MavenExecutor.java:272-281 | Read position by position, `AppendsTemplated` says the management grew by exactly the number of remaining entries, and the k-th new element is the k-th remaining entry, templated. |
| MvnxResolution.AdoptPom | src/main/java/io/github/arlol/mvnx/MavenExecutor.java:239-265 | The statements, including the properties loop, compute `Adopt`. |
| MvnxResolution.ManageEntry | src/main/java/io/github/arlol/mvnx/MavenExecutor.java:273-281 | One management entry computes `ManageStep`. |
| MvnxResolution.CollectManagement | src/main/java/io/github/arlol/mvnx/MavenExecutor.java:267-283 | The management loop computes `ManageFrom`. |
| MvnxResolution.CollectDependencies | src/main/java/io/github/arlol/mvnx/MavenExecutor.java:285-293 | The dependencies loop computes `DependFrom`. |
| MvnxResolution.ReconcileOne | src/main/java/io/github/arlol/mvnx/MavenExecutor.java:299-303 | One dependency of the parent-chain loop: managed, then resolved again when its version changed; a null managed version throws. |
| MvnxResolution.ReconcileLevel | src/main/java/io/github/arlol/mvnx/MavenExecutor.java:298-304 | One level of the parent-chain loop computes `ReconcileEntries`. |
| MvnxResolution.ReconcileParents | src/main/java/io/github/arlol/mvnx/MavenExecutor.java:295-306 | The nested parent-chain loop computes `ReconcileChain`. |
| MvnxResolution.ManageAndResolveOne | src/main/java/io/github/arlol/mvnx/MavenExecutor.java:310-311 | One dependency of the last loop is managed in the list, then resolved. |
| MvnxResolution.ManageAndResolve | src/main/java/io/github/arlol/mvnx/MavenExecutor.java:308-312 | The last loop computes `FinalFrom`. |
| MvnxResolution.ResolveArtifact | src/main/java/io/github/arlol/mvnx/MavenExecutor.java:223-313 | The method computes `Resolve`: the artifact's value after the call, or the exception it throws. |
| MvnxResolution.ApplyPom | src/main/java/io/github/arlol/mvnx/MavenExecutor.java:239-312 | resolve from line 239 on computes `FromPom`. |

## Left out

- **Downloads and the local cache.** The model leaves out:
  - the HTTP requests and file probing of `pom`, `getJarUrls` and `ClassLoaderExperiment.project`, which are network and file I/O;
  - the order in which remote repositories are tried;
  - the `inMemory` switch and the `remote` field.

  A POM is served or not by a map from repository path to parsed POM. A path missing from the map is the "Download failed" exception.
- **IllegalStateException.** The IOException and InterruptedException wrapped in IllegalStateException cannot occur in the model: no I/O is modelled.
- **XML parsing.** `xmlDocument`, `getChildElementsByTagName`, `getTextContentFromFirstChildElementByTagName` and `getElementsByTagName` belong to a foreign library. An element is a map from tag to text, and a POM is a record of its parents, coordinates, properties and entries. Whitespace and the DOM's text normalisation are not modelled.
- **`execute` and both `main` methods.** They use `URLClassLoader` and reflection. The `mainClass` fallback from the artifact's properties is part of `execute` and is left out with it.
- **The live host.**
  - The `user.home` system property is the `Executor` constructor's parameter.
  - `System.getenv()` and `System.getProperties()` are map parameters.
  - `Files.exists` on the settings file, together with the parsing of its `<localRepository>` element, is a map from settings path to that element's text.
  - The repository's `ClassLoaderExperiment.localRepository` additionally requires exactly one such element; the model receives the text already chosen.
- **Fuel bounds.** Each fuel bound turns a loop that the source may never leave into an `OutOfFuel` failure. This covers:
  - the template passes, which diverge for a self-referencing property (`Templating.TemplateDiverges`);
  - the depth of `resolve`, `project` and `projectDependencies`, which a cycle of parents or imports would otherwise take to a stack overflow.

  No lemma states how much fuel suffices.
- **Aliasing.** `resolve` mutates artifacts that the caller's list and the dependents' hierarchies share. The model passes values. A nested `resolve` therefore sees the stack as it stood when the nested call began. Writes that later reach a shared object through another reference are not reflected.
- **`MinimavenProject`.** Project.java types `parent` as `Dependency`, while `project(...)` assigns a `Project`. The model uses a project.
- **`toString`.** `toString` on the artifact classes and the `hashCode` of `Path` are not modelled.
- Arguments.Executor.ParseArguments: after an exception, the fields that the loop had already written (the coordinate, an option read before the failing one) keep their new values in Java. The contract says nothing about the state after a failure.
- Layout.MavenLocalRepository: for a non-blank setting that holds tokens, the contract does not state the templated path. `Layout.MavenLocalRepositoryVerbatim` covers token-free settings, and `Templating.Templated` states the templating itself.
- MvnxResolution.ManagementAppendedInOrder: it requires at least one remaining entry. With none left, the loop returns the artifact unchanged, which is how `ManageFrom` is defined.
- **Regex internals.** `Templating.Find` and the token patterns model `Matcher.find` for these three fixed patterns only. `\w` is taken as ASCII letters, digits and `_`, as Java has it without `UNICODE_CHARACTER_CLASS`. General regular expressions are not modelled.
- **`String.split`.** Only a one-character separator is modelled, which covers `:` and `,`.

## Findings

| source | as written | input that shows it | evidently intended | confidence | as-written member | corrected member |
|---|---|---|---|---|---|---|
| src/main/java/io/github/arlol/minimaven/ClassLoaderExperiment.java:35 | The pattern `\$\{env.([\w_]+)\}` leaves the `.` unescaped, so any character except a line terminator is accepted after `env`. | `${envXHOME}` with HOME set becomes HOME's value; with HOME unset it is rewritten to `${env.HOME}`. | Only `${env.NAME}` is an environment token; `${envXHOME}` is left as it is. | not executed | Templating.UnescapedDotAcceptsAnySeparator | Templating.EscapedDotRequiresDot |

Both halves are in `Templating`:

- `Templating.TemplateEnvironmentVariables` keeps the pattern as written.
- `Templating.TemplateEnvironmentVariablesStrict` escapes the dot.
- `Templating.TemplateText`, and through it `Layout.MinimavenLocalRepository`, runs the pattern as written, as `template(text)` does. `Templating.TemplateTextAnySeparator` shows `${envXNAME}` taking NAME's value there.
- `Templating.TemplateTextStrict` is the corrected composite. `Templating.TemplateTextStrictNeedsDot` shows that it leaves `${envXNAME}` to the system-property pass.
