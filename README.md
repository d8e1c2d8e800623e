# Gephi Maven plugin: validation and metadata goals

This project models the two aggregating goals of the Gephi Maven plugin in Dafny. Both run over the projects of a Maven reactor.

- `validate` checks that the reactor's `nbm` modules form exactly one plugin suite. The children of that suite must pass the manifest's show-in-client check, and the suite's top plugin must declare a license and authors in the configuration of its `nbm-maven-plugin`.
- `build-metadata` selects the `nbm` modules built for the current `gephi.version`. It writes one JSON record per top plugin of the module tree. Each record has a single download entry for that release.

The module tree is an input. It is the ordered list of (top plugin, member list) pairs that `ModuleUtils.getModulesTree` returns. It is not rebuilt here.

Files:

- `Wrappers.dfy`: `Option`, `Result` and `Outcome`.
- `Sequences.dfy`: filtering, first-match search, and `List.remove(Object)`.
- `JavaStrings.dfy`: the `String` operations the code relies on: `equalsIgnoreCase` with ASCII folding, `trim`, and `split(",")`.
- `Model.dfy`: projects, plugins, records, errors, and the collaborators that are not part of this model.
- `MetadataUtils.dfy`: plugin lookup, license name and author list.
- `Validate.dfy`: the `validate` goal. It is a class that holds the `manifestUtils` field and proves its methods against the specification function `Validation`.
- `BuildMetadata.dfy`: the `build-metadata` goal. It is a class whose `Execute` is proved against the specification function `Build`.

How the source is represented:

- Each exception is a `MojoError` value returned as a failure. `null` is `None`.
- A Maven `Xpp3Dom` configuration becomes an optional map from child name to value.
- These collaborators are total functions held in a `Collaborators` value:
  - the tree builder and `getModuleDownloadPath` of `ModuleUtils`;
  - `checkManifestShowClientFalse` and `readManifestMetadata` of `ManifestUtils`;
  - `getReadme`;
  - `ScreenshotUtils.copyScreenshots`.
- The formatted date is a parameter.

Two behaviours of the code worth noting:

- The authors check only tests that the author list is present. A present but empty list passes.
- An `nbm` module without a `gephi.version` property makes `build-metadata` fail with a `NullPointerException` (BuildMetadata.java line 91). The model reports this as the error `NullModuleVersion`.

## Model

| member | source | states |
|---|---|---|
| `Sequences.Filter` | src/main/java/org/gephi/maven/Validate.java:59-65 | The filtered list holds only elements of the input that satisfy the test. It holds every input element that satisfies it, and is no longer than the input. |
| `Sequences.FilterConcat` | src/main/java/org/gephi/maven/Validate.java:59-65 | Filtering distributes over concatenation, so the kept elements keep their input order. |
| `Sequences.FirstIndex` | src/main/java/org/gephi/maven/MetadataUtils.java:89-95 | Gives the first position whose element satisfies the test, with none before it. Gives none exactly when no element satisfies it. |
| `Sequences.RemoveFirst` | src/main/java/org/gephi/maven/Validate.java:95 | Removes the first element equal to the given one (`List.remove(Object)`). Re-inserting it at that position gives the list back. The list is unchanged when there is no such element, and no other element is lost. |
| `JavaStrings.ToLowerAscii` | src/main/java/org/gephi/maven/MetadataUtils.java:91 | Maps each ASCII letter `A`-`Z` to the lower-case letter at the same position in the alphabet. Every other character is unchanged. |
| `JavaStrings.EqualsIgnoreCaseIsFoldedEquality` | src/main/java/org/gephi/maven/MetadataUtils.java:91 | `equalsIgnoreCase` holds exactly when the two strings, folded character by character to lower case, are equal. |
| `JavaStrings.EqualsIgnoreCaseEquivalence` | src/main/java/org/gephi/maven/MetadataUtils.java:91 | Comparing keys ignoring case is reflexive, symmetric and transitive. |
| `JavaStrings.LeadingCount` | src/main/java/org/gephi/maven/MetadataUtils.java:71 | Counts the characters up to U+0020 at the start of the string. The next character, if any, is above U+0020. |
| `JavaStrings.TrailingCount` | src/main/java/org/gephi/maven/MetadataUtils.java:71 | Counts the characters up to U+0020 at the end of the string. The character before them, if any, is above U+0020. |
| `JavaStrings.Trim` | src/main/java/org/gephi/maven/MetadataUtils.java:71 | `trim()` gives the middle of the string between a prefix and a suffix made only of characters up to U+0020. The result neither starts nor ends with such a character. |
| `JavaStrings.TrimUnique` | src/main/java/org/gephi/maven/MetadataUtils.java:71 | Any split of a string into blank ends around a core that is not padded has `Trim` as its core, so the contract of `Trim` determines it. |
| `JavaStrings.TrimKeepsOut` | src/main/java/org/gephi/maven/MetadataUtils.java:71 | Trimming adds no character. |
| `JavaStrings.TrimIdempotent` | src/main/java/org/gephi/maven/MetadataUtils.java:71 | Trimming twice is the same as trimming once. |
| `JavaStrings.Occurrences` | src/main/java/org/gephi/maven/MetadataUtils.java:69 | The comma count is zero exactly when the string has no comma. |
| `JavaStrings.Pieces` | src/main/java/org/gephi/maven/MetadataUtils.java:69 | The raw pieces between commas number one more than the commas, and none contains a comma. |
| `JavaStrings.JoinPieces` | src/main/java/org/gephi/maven/MetadataUtils.java:69 | Joining the raw pieces with commas gives back the original string. |
| `JavaStrings.DropTrailingEmpty` | src/main/java/org/gephi/maven/MetadataUtils.java:69 | The result is a prefix of the list. Only empty strings are dropped, and the result does not end with one. |
| `JavaStrings.Split` | src/main/java/org/gephi/maven/MetadataUtils.java:69 | `split(",")` of a comma-free string is that string alone, even when it is empty. For a string with a comma, the result is empty or its last piece is not empty. There is at most one more piece than commas, and no piece holds a comma. |
| `JavaStrings.SplitKeepsPieces` | src/main/java/org/gephi/maven/MetadataUtils.java:69 | The result of `split(",")` is a prefix of the raw pieces, and every raw piece it leaves out is empty. With `Split`, this fixes the result: the raw pieces with exactly the trailing empty ones dropped. |
| `MetadataUtils.NbmPluginIndex` | src/main/java/org/gephi/maven/MetadataUtils.java:86-96 | Gives the position of the first build plugin whose key equals `org.codehaus.mojo:nbm-maven-plugin` ignoring case. Gives none exactly when no plugin has that key. |
| `MetadataUtils.FirstNbmPluginUnique` | src/main/java/org/gephi/maven/MetadataUtils.java:89-95 | There is at most one first nbm plugin. |
| `MetadataUtils.NbmPlugin` | src/main/java/org/gephi/maven/MetadataUtils.java:86-96 | The looked-up plugin is absent exactly when no key matches. Otherwise it is the plugin at the first matching position. |
| `MetadataUtils.LookupNbmPlugin` | src/main/java/org/gephi/maven/MetadataUtils.java:86-96 | The loop over build plugins stops at the first matching key and returns that plugin. It returns none after a full scan. |
| `MetadataUtils.ConfigChild` | src/main/java/org/gephi/maven/MetadataUtils.java:42-51 | A configuration child is present exactly when the first nbm plugin has a configuration that holds that child. When present, its value is returned unchanged. |
| `MetadataUtils.GetLicenseName` | src/main/java/org/gephi/maven/MetadataUtils.java:42-51 | `getLicenseName` is absent exactly when there is no nbm plugin, its configuration is null, or it has no `licenseName` child. Otherwise it is that child's value, unchanged. |
| `MetadataUtils.AuthorNamesClean` | src/main/java/org/gephi/maven/MetadataUtils.java:69-73 | No author name contains a comma or has a leading or trailing character up to U+0020. There are at most one more names than commas. |
| `MetadataUtils.GetAuthors` | src/main/java/org/gephi/maven/MetadataUtils.java:62-78 | Returns exactly the specified author list, or none when the `author` child is absent. |
| `MetadataUtils.AuthorNames` | src/main/java/org/gephi/maven/MetadataUtils.java:68-74 | The loop over the split pieces adds one author per piece, named by the trimmed piece, in order. The result is exactly `AuthorList`. |
| `MetadataUtils.AuthorsAbsent` | src/main/java/org/gephi/maven/MetadataUtils.java:62-66 | `getAuthors` is absent under the same three conditions as the license name, with `author` in place of `licenseName`. |
| `MetadataUtils.AuthorsAreTrimmedPieces` | src/main/java/org/gephi/maven/MetadataUtils.java:69-73 | Author `i` is raw piece `i` trimmed, in the original order. The pieces left over are all empty, and when the value has a comma the last kept piece is not empty. So exactly the trailing empty pieces are dropped, and the pieces rejoin to the value. |
| `MetadataUtils.SingleAuthor` | src/main/java/org/gephi/maven/MetadataUtils.java:69-74 | A comma-free value, including the empty one, gives exactly one author: the trimmed value. |
| `MetadataUtils.AuthorExamples` | src/main/java/org/gephi/maven/MetadataUtils.java:69 | `"a,b,"` gives authors `a` and `b`, `","` gives an empty list, and `""` gives one empty name. |
| `Validate.Mojo.Execute` | src/main/java/org/gephi/maven/Validate.java:55-78 | Assigns `manifestUtils` for the configured manifest path. Filters the reactor in a loop, then returns exactly the specified validation outcome. |
| `Validate.Mojo.ExecuteSingleModuleProject` | src/main/java/org/gephi/maven/Validate.java:80-83 | A lone module is judged by its metadata checks alone. |
| `Validate.Mojo.ExecuteMultiModuleProject` | src/main/java/org/gephi/maven/Validate.java:85-104 | Refuses an empty tree or more than one suite. Removes the root from the member list, checks each child in order and stops at the first failure, then checks the root's metadata. |
| `Validate.Mojo.CheckChildren` | src/main/java/org/gephi/maven/Validate.java:100-102 | The loop over the children returns the error of the first child that fails the show-in-client check, or passes when none fails. |
| `Validate.Mojo.CheckMetadata` | src/main/java/org/gephi/maven/Validate.java:106-115 | Checks for a license, then for an author list, then reads the manifest. The first failure is the outcome. |
| `Validate.ReactorRequired` | src/main/java/org/gephi/maven/Validate.java:57 | A null or empty reactor fails with "should be a reactor project", and no other input gives that error. |
| `Validate.CandidatesAreNbmProjects` | src/main/java/org/gephi/maven/Validate.java:59-65 | The candidates are exactly the reactor projects with `nbm` packaging, in reactor order. |
| `Validate.NoCandidates` | src/main/java/org/gephi/maven/Validate.java:67-68 | The "No 'nbm' modules" error arises exactly for a non-empty reactor with no `nbm` project. |
| `Validate.SingleCandidate` | src/main/java/org/gephi/maven/Validate.java:69-71 | With one candidate, the outcome is that module's metadata check. It does not depend on the tree builder or the show-in-client check. |
| `Validate.SuiteRule` | src/main/java/org/gephi/maven/Validate.java:88-92 | With several candidates, an empty tree fails with "no suite detected" and several roots fail with "Multiple module suites". Success needs exactly one root. |
| `Validate.ChildrenPass` | src/main/java/org/gephi/maven/Validate.java:100-102 | The children pass exactly when every child passes the show-in-client check. |
| `Validate.FirstShownChild` | src/main/java/org/gephi/maven/Validate.java:100-102 | The first child that fails the show-in-client check, after passing ones, gives the children's error. |
| `Validate.ChildrenBeforeRoot` | src/main/java/org/gephi/maven/Validate.java:93-103 | With one suite, the first child that fails the show-in-client check decides the outcome, whatever the root declares. Success holds exactly when every child passes and the root's metadata check passes. |
| `Validate.ChildrenExcludeRoot` | src/main/java/org/gephi/maven/Validate.java:94-95 | The children are the members with the first member equal to the root removed, and no other member removed. |
| `Validate.MetadataOrder` | src/main/java/org/gephi/maven/Validate.java:106-115 | A missing license is reported before missing authors. The manifest is read only when both are present, and then it alone decides. |
| `Validate.EmptyAuthorListPasses` | src/main/java/org/gephi/maven/Validate.java:110-112 | An `author` value of `","` gives a present, empty list, and the check passes. |
| `BuildMetadata.Mojo.Execute` | src/main/java/org/gephi/maven/BuildMetadata.java:77-146 | Returns exactly the specified records or the first error. It checks the version, then the reactor, then selects modules, then builds one record per tree entry. |
| `BuildMetadata.Mojo.BuildRecords` | src/main/java/org/gephi/maven/BuildMetadata.java:107-128 | The loop over the tree returns exactly the specified records. It stops at the first entry whose manifest cannot be read. |
| `BuildMetadata.Mojo.CollectModules` | src/main/java/org/gephi/maven/BuildMetadata.java:86-98 | The selection loop returns the `nbm` modules built for the release, or fails at the first `nbm` module that has no `gephi.version`. |
| `BuildMetadata.Mojo.PluginRecord` | src/main/java/org/gephi/maven/BuildMetadata.java:109-127 | Fills one record field by field. It fails exactly when the root's manifest cannot be read, with that error. |
| `BuildMetadata.VersionRequiredFirst` | src/main/java/org/gephi/maven/BuildMetadata.java:78-81 | A missing `gephi.version` on the executing project fails before the reactor is examined. |
| `BuildMetadata.ReactorRequired` | src/main/java/org/gephi/maven/BuildMetadata.java:84 | With the version known, a null or empty reactor fails with "should be a reactor project", and nothing else gives that error. |
| `BuildMetadata.Selection` | src/main/java/org/gephi/maven/BuildMetadata.java:86-98 | Selection fails exactly when an `nbm` module lacks `gephi.version`, naming the first one. Otherwise a module is kept exactly when it is `nbm` with the build's version, and reactor order is preserved. |
| `BuildMetadata.RecordList` | src/main/java/org/gephi/maven/BuildMetadata.java:107-128 | When every manifest is readable, there is one record per tree entry, in tree order. Entry `i` gets the record filled from its root and its manifest. |
| `BuildMetadata.AllReadableRecords` | src/main/java/org/gephi/maven/BuildMetadata.java:107-128 | When every manifest is readable, building succeeds with the records in tree order. |
| `BuildMetadata.FirstUnreadable` | src/main/java/org/gephi/maven/BuildMetadata.java:112 | The first entry whose manifest cannot be read, after readable ones, aborts the build with that error. |
| `BuildMetadata.RecordsShape` | src/main/java/org/gephi/maven/BuildMetadata.java:108-128 | One record per tree entry in tree order, with no single-suite rule. Each record has: id `groupId.artifactId`; license and authors copied unvalidated; a `versions` map whose only key is the build's release; and url `release + "/" + download path`. |
| `BuildMetadata.PerReleaseVersions` | src/main/java/org/gephi/maven/BuildMetadata.java:119-125 | Two builds differing only in the release label give the same ids. Each `versions` map holds exactly one entry, keyed by its own label. |
| `BuildMetadata.SuitesAsymmetry` | src/main/java/org/gephi/maven/BuildMetadata.java:103-128 | When every `nbm` module targets the release and the tree has several readable suites, validation fails with "Multiple module suites". Metadata building instead gives one record per suite. |
| `BuildMetadata.SameSelection` | src/main/java/org/gephi/maven/BuildMetadata.java:86-98 | When every `nbm` module targets the release, selection keeps exactly the `nbm` modules, the same candidates validation uses. |

## Left out

- Module tree builder (`ModuleUtils.getModulesTree`) and `getModuleDownloadPath`: ModuleUtils.java is not part of this model. Both are opaque total functions, so failures they might raise are not modelled.
- `ManifestUtils.checkManifestShowClientFalse` and `readManifestMetadata`: ManifestUtils.java is not part of this model. Each is an opaque function giving success or an error message. The fields the second copies into a record are an opaque map.
- `MetadataUtils.getReadme` (file reading and its error handling) and `ScreenshotUtils.copyScreenshots` (file copying): both are opaque functions of their inputs.
- JSON serialization with Gson, writing `plugins.json`, and the "Error while writing plugins.json file" failure: these are a foreign library plus file I/O. `Execute` returns the records that would be written, so the JSON round trip is not stated.
- Date formatting with `SimpleDateFormat` and `new Date()`: a single formatted `today` string is used for both `last_update` fields. The source formats the date twice, and the two calls could differ across midnight.
- Logging, Maven parameter injection, and the `Xpp3Dom` tree. The tree is reduced to an optional map of child values. A child whose value is null is not modelled.
- `equalsIgnoreCase` uses ASCII case folding only. Java also matches some non-ASCII letters to ASCII ones, such as `ſ` (U+017F) to `s`, `ı` (U+0131) to `i` and `İ` (U+0130) to `i`. So a build-plugin key such as `org.codehauſ.mojo:nbm-maven-plugin` matches the nbm plugin key in the code but not in the model.
- `File.separator`: paths built from the output directory use `/`.
- Project identity for `children.remove(root)` is `MavenProject.equals`: same group, artifact and version. A null packaging or a property value that is not a string is not modelled.
- `PluginMetadata` and `Version` objects are values updated field by field rather than heap objects. They are freshly created and never shared, so no aliasing is lost. Their JSON classes are not part of this model, so a new record is assumed to start with an empty `versions` map.
