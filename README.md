# NuGet lock file: canonical dependency strings and consistency check

A Dafny model of `LockFile` from NuGet's project model. A lock file records
the outcome of a restore. It holds:

- a locked flag and a format version;
- one dependency group per target framework plus one shared group, each
  holding canonical "runtime style" dependency strings;
- the resolved libraries;
- one target per framework and runtime identifier.

The model covers:

- how a declared dependency is rendered as a canonical string, for example
  `Name >= 1.0.0< 2.0.0`;
- `IsValidForPackageSpec`, which decides whether a lock file still describes
  a project specification;
- `GetTarget` and `GetLibrary`, which look up the first matching target or
  library.

Layout:

- `wrappers.dfy`: `Option`, standing for a reference that may be null.
- `text.dfy`: `string.IsNullOrEmpty`, ordinal comparison ignoring case, and
  the first index of a character.
- `linq.dfy`: `FirstOrDefault` with a predicate.
- `versioning.dfy`, `frameworks.dfy`, `library_model.dfy`: the external value
  types (`NuGetVersion`, `FloatRange`, `VersionRange`, `NuGetFramework`,
  `LibraryRange`, `LibraryDependency`). They are opaque. Each value carries the
  texts its `ToString` produces and the key its `Equals` compares.
- `range_strings.dfy`: the canonical string as a function (`RangeText`), and a
  reader (`ParseRangeText`) that takes it apart again.
- `project_model.dfy`: the lock file class, the project specification, and
  the verdict of the check as a predicate (`ValidForPackageSpec`).
- `lock_file_properties.dfy`: lemmas about the check and the lookups.

`LockFile` is a class whose fields are the settable properties. Its members
only read them:

- `IsValidForPackageSpec` is a method. It loops over the groups and returns
  early, as the source does. It is proved equal to `ValidForPackageSpec`.
- `RuntimeStyleLibraryRangeToString` builds its string by successive appends.
  It is proved equal to `RangeText`.
- `GetTarget` and `GetLibrary` are functions over `FirstOrDefault`.

Sorting both lists with `OrderBy(x => x)` and comparing them with
`SequenceEqual` is modelled as equality of multisets: order does not matter,
and duplicates count.

The canonical form is sometimes documented differently from what the code
writes; the model follows the code:

- It is documented as having a space before the upper bound. The code writes
  none (`LockFile.cs:100-104`).
- It is documented as stopping after the name when there is no minimum
  version. The code stops only when the range itself is null (`LockFile.cs:81-84`).
  A non-floating range with a null minimum would make the code dereference
  null, so the model requires a minimum there.

## Model

| member | source | states |
|---|---|---|
| ProjectModel.LockFile.constructor | src/NuGet.ProjectModel/LockFile.cs:16-20 | a new lock file is not locked, has version 0, and has empty group, library and target lists |
| ProjectModel.LockFile.IsValidForPackageSpec | src/NuGet.ProjectModel/LockFile.cs:22-67 | the early-exit loop returns true exactly when the version is current, there are as many groups as frameworks plus one, and every group passes |
| ProjectModel.LockFile.RenderDependencies | src/NuGet.ProjectModel/LockFile.cs:45 | rendering the dependencies one by one gives the canonical string of each, in order |
| ProjectModel.LockFile.LibraryRangeToString | src/NuGet.ProjectModel/LockFile.cs:70-73 | a `LibraryRange` renders as its name with its version range |
| ProjectModel.LockFile.RuntimeStyleLibraryRangeToString | src/NuGet.ProjectModel/LockFile.cs:75-107 | the appended pieces form exactly the canonical string `RangeText`; the range must be renderable (a float pattern when floating, a minimum otherwise) |
| ProjectModel.LockFile.GetTarget | src/NuGet.ProjectModel/LockFile.cs:109-115 | the result is the first target whose framework is equal and whose runtime identifier is null or empty on both sides or equal ignoring case; none when no target matches |
| ProjectModel.LockFile.GetLibrary | src/NuGet.ProjectModel/LockFile.cs:117-122 | the result is the first library with exactly this name and an equal version; none when no library matches |
| Linq.FirstOrDefault | src/NuGet.ProjectModel/LockFile.cs:49-51 | the result is the element at the first position satisfying the predicate, and none exactly when no element satisfies it |
| RangeStrings.RangeTextShape | src/NuGet.ProjectModel/LockFile.cs:77-84 | every canonical string starts with the name and a space, and is exactly that when the range is null |
| RangeStrings.ParseBoundsRoundTrip | src/NuGet.ProjectModel/LockFile.cs:89-104 | the bounds are written as ">= ", then the float pattern or the minimum, then "<= " or "< " and the maximum's numeric version with no separator; they can be read back as such |
| RangeStrings.ParseRangeTextRoundTrip | src/NuGet.ProjectModel/LockFile.cs:75-107 | reading a canonical string back gives the name and exactly the rendered part of the range (lower bound text, inclusiveness and upper bound text), when the name holds no space and the lower bound no '<' |
| RangeStrings.RangeTextInjective | src/NuGet.ProjectModel/LockFile.cs:75-107 | two such dependencies render alike exactly when their names and rendered range parts agree; whether the lower bound is inclusive, the minimum of a floating range and the maximum's release label do not reach the string |
| RangeStrings.MinInclusivenessNotRendered | src/NuGet.ProjectModel/LockFile.cs:89 | the lower bound is always written ">= ", so an inclusive and an exclusive lower bound give the same canonical string and the same retained part |
| RangeStrings.NoSeparatorBeforeUpperBound | src/NuGet.ProjectModel/LockFile.cs:100-104 | the range from 1.0.0 up to 2.0.0-beta, exclusive, on "A" renders as "A >= 1.0.0< 2.0.0": no space before the upper bound, and the maximum without its release label |
| LockFileProperties.StructuralGates | src/NuGet.ProjectModel/LockFile.cs:24-35 | a version other than the format version, or a group count other than frameworks plus one, fails the lock file whatever the groups hold |
| LockFileProperties.GroupOrderIrrelevant | src/NuGet.ProjectModel/LockFile.cs:37-66 | any reordering of the groups leaves the verdict unchanged |
| LockFileProperties.PassingGroupsAgree | src/NuGet.ProjectModel/LockFile.cs:40-63 | two passing groups with the same framework name hold the same strings, each as often |
| LockFileProperties.DependencyOrderIrrelevant | src/NuGet.ProjectModel/LockFile.cs:40-63 | any reordering of the strings stored in a group leaves the verdict unchanged |
| LockFileProperties.RemovingDependencyInvalidates | src/NuGet.ProjectModel/LockFile.cs:60-63 | removing any one stored string from a valid lock file makes it invalid |
| LockFileProperties.ReplacingDependencyInvalidates | src/NuGet.ProjectModel/LockFile.cs:60-63 | replacing any one stored string of a valid lock file by a different string makes it invalid |
| LockFileProperties.NamedGroupUsesFirstFramework | src/NuGet.ProjectModel/LockFile.cs:47-58 | a named group fails when no framework's display name matches it ignoring case; otherwise it passes exactly when it matches the dependencies of the first such framework |
| LockFileProperties.GroupNameCaseInsensitive | src/NuGet.ProjectModel/LockFile.cs:49-51 | changing the case of a group's framework name does not change whether it passes |
| LockFileProperties.GeneratedLockFileIsValid | src/NuGet.ProjectModel/LockFile.cs:31-66 | a current-version lock file holding, in any order, the shared group and one group per framework under its display name passes, when those names are non-empty and distinct ignoring case |
| LockFileProperties.SharedGroupMayStandInForFramework | src/NuGet.ProjectModel/LockFile.cs:29-35 | the count is the only structural check: two shared groups and no group for the one declared framework still pass |
| LockFileProperties.GetTargetRuntimeIdentifierCase | src/NuGet.ProjectModel/LockFile.cs:111-114 | runtime identifiers equal ignoring case, or both null or empty, select the same target |
| LockFileProperties.GetTargetFindsEach | src/NuGet.ProjectModel/LockFile.cs:109-115 | when no two targets match each other's framework and runtime identifier, each target is found by its own pair |
| LockFileProperties.GetLibraryFindsEach | src/NuGet.ProjectModel/LockFile.cs:117-122 | when no two libraries share a name and an equal version, each library is found by its own name and version |

## Left out

- ProjectModel.LockFile.IsValidForPackageSpec: requires every dependency range in the specification to be renderable. The source dereferences a missing minimum or float pattern only when it reaches that dependency. The source does not throw on paths that return early. It also does not throw on lock files in which no group leads to a framework's dependencies, or to the shared ones: for example two shared groups, with one framework whose dependency lacks a minimum, return true. The model still requires renderability for all of these.
- ProjectModel.LockFile.IsValidForPackageSpec: the comparison uses multiset equality. The source sorts with the culture-sensitive default comparer and then compares ordinally. If that comparer ranks two different strings as equal, the stable sort could leave them in different orders on the two sides, and the source would reject two lists with the same multiset.
- The canonical string does not record whether the lower bound is inclusive (`LockFile.cs:89`). So a lock file validates alike against specifications whose ranges differ only there. The model states this loss (`RangeStrings.MinInclusivenessNotRendered`) rather than leaving it out.
- Case-insensitive comparison maps only the ASCII letters. Other characters compare as they are.
- `NuGetVersion`, `FloatRange`, `VersionRange` and `NuGetFramework` are opaque values. Their parsing, `ToString` and `Equals` live in libraries that are not part of this model. `IsFloating` is a field of the range rather than derived from the float behaviour.
- `LockFileFormat.Version` is not part of this model. It is a constant with an unspecified value.
- Null where the model has none:
  - a null dependency name (`StringBuilder.Append(null)` appends nothing);
  - a null name or version passed to `GetLibrary`;
  - a null framework passed to `GetTarget`;
  - null lists and null list elements.
  Only the nullable strings that the code tests are modelled: group framework names and runtime identifiers.
- The other members of a library and of a target (files, hashes, per-target libraries) are left out, because the lookups do not use them. How a lock file is read and written is also left out.
- The `StringBuilder` is a local string that each append extends.
- LINQ's deferred evaluation is modelled as eager evaluation. The result is the same because nothing changes while the query runs.
- Not part of this model:
  - the nuspec reader's grouping of dependencies, references and framework assemblies, which its tests exercise;
  - the V3 UI search resource;
  - the V2 simple search resource provider.
  They are network and JSON glue, or rely on framework parsing whose code is not available.
