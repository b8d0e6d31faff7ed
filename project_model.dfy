/**
 * The lock file document (`LockFile`) and the project specification it is
 * checked against: whether a lock file still describes a project, and the
 * lookups of a target and of a library in it.
 */
module ProjectModel {
  import opened Wrappers
  import opened Text
  import opened Linq
  import opened Versioning
  import opened Frameworks
  import opened LibraryModel
  import opened RangeStrings

  /**
   * `LockFileFormat.Version`, the format version that a current lock file
   * carries. Its value belongs to the lock file format, which is not part of
   * this model, so it is left unspecified here.
   */
  const LockFileFormatVersion: int

  /** One target framework a project declares, with its own dependencies. */
  datatype TargetFrameworkInformation = TargetFrameworkInformation(
    frameworkName: NuGetFramework,
    dependencies: seq<LibraryDependency>)

  /** A `PackageSpec`: the dependencies shared by all frameworks and the declared frameworks. */
  datatype PackageSpec = PackageSpec(
    dependencies: seq<LibraryDependency>,
    targetFrameworks: seq<TargetFrameworkInformation>)

  /**
   * One recorded dependency group: a framework name (null or empty for the
   * group shared by all frameworks) and the canonical dependency strings.
   */
  datatype ProjectFileDependencyGroup = ProjectFileDependencyGroup(
    frameworkName: NullableString,
    dependencies: seq<string>)

  /** A resolved package; the lookup uses its name and version only. */
  datatype LockFileLibrary = LockFileLibrary(name: string, version: NuGetVersion)

  /** The restore result for one framework and runtime identifier. */
  datatype LockFileTarget = LockFileTarget(targetFramework: NuGetFramework, runtimeIdentifier: NullableString)

  /** Every dependency range the specification declares can be rendered. */
  predicate SpecRenderable(spec: PackageSpec)
  {
    && AllRenderable(spec.dependencies)
    && forall i :: 0 <= i < |spec.targetFrameworks| ==> AllRenderable(spec.targetFrameworks[i].dependencies)
  }

  /**
   * Both lists sorted with `OrderBy(x => x)` and compared with
   * `SequenceEqual`: the same strings, each the same number of times.
   */
  predicate SameDependencies(actual: seq<string>, expected: seq<string>)
  {
    multiset(actual) == multiset(expected)
  }

  /** The framework's display name equals `name`, ignoring case. */
  predicate NamesFramework(f: TargetFrameworkInformation, name: string)
  {
    EqualsIgnoreCase(f.frameworkName.text, name)
  }

  /** The first declared framework whose display name matches the group's name. */
  function FindFramework(frameworks: seq<TargetFrameworkInformation>, name: string): Option<TargetFrameworkInformation>
  {
    FirstOrDefault(frameworks, f => NamesFramework(f, name))
  }

  /**
   * One group is consistent with the specification: the shared group against
   * the shared dependencies, a named group against the first framework of
   * that name, which must exist.
   */
  predicate GroupPasses(g: ProjectFileDependencyGroup, spec: PackageSpec)
    requires SpecRenderable(spec)
  {
    if IsNullOrEmpty(g.frameworkName) then
      SameDependencies(RenderAll(spec.dependencies), g.dependencies)
    else
      match FindFramework(spec.targetFrameworks, g.frameworkName.value)
      case None => false
      case Some(f) => SameDependencies(RenderAll(f.dependencies), g.dependencies)
  }

  /** The verdict of `IsValidForPackageSpec` on a lock file with this version and these groups. */
  predicate ValidForPackageSpec(version: int, groups: seq<ProjectFileDependencyGroup>, spec: PackageSpec)
    requires SpecRenderable(spec)
  {
    && version == LockFileFormatVersion
    && |groups| == |spec.targetFrameworks| + 1
    && forall i :: 0 <= i < |groups| ==> GroupPasses(groups[i], spec)
  }

  /**
   * The target's framework equals `framework`, and either both runtime
   * identifiers are null or empty or they are equal ignoring case.
   */
  predicate TargetMatches(t: LockFileTarget, framework: NuGetFramework, runtimeIdentifier: NullableString)
  {
    && FrameworkEquals(t.targetFramework, framework)
    && ((IsNullOrEmpty(runtimeIdentifier) && IsNullOrEmpty(t.runtimeIdentifier))
        || NullableEqualsIgnoreCase(runtimeIdentifier, t.runtimeIdentifier))
  }

  /** The library's name equals `name` exactly (ordinal, case-sensitive) and its version equals `version`. */
  predicate LibraryMatches(l: LockFileLibrary, name: string, version: NuGetVersion)
  {
    l.name == name && VersionEquals(l.version, version)
  }

  class LockFile {
    var isLocked: bool
    var version: int
    var projectFileDependencyGroups: seq<ProjectFileDependencyGroup>
    var libraries: seq<LockFileLibrary>
    var targets: seq<LockFileTarget>

    /** A new lock file: not locked, version 0, every list empty. */
    constructor ()
      ensures !isLocked && version == 0
      ensures projectFileDependencyGroups == [] && libraries == [] && targets == []
    {
      isLocked := false;
      version := 0;
      projectFileDependencyGroups := [];
      libraries := [];
      targets := [];
    }

    /**
     * Whether this lock file still describes `spec`: the format version is
     * current, there is one group per declared framework plus one, and every
     * group records exactly the canonical strings of the dependencies it
     * stands for. The first failing check ends the scan.
     */
    method IsValidForPackageSpec(spec: PackageSpec) returns (valid: bool)
      requires SpecRenderable(spec)
      ensures valid == ValidForPackageSpec(version, projectFileDependencyGroups, spec)
    {
      if version != LockFileFormatVersion {
        return false;
      }
      var actualTargetFrameworks := spec.targetFrameworks;
      if |projectFileDependencyGroups| != |actualTargetFrameworks| + 1 {
        return false;
      }
      for i := 0 to |projectFileDependencyGroups|
        invariant forall j :: 0 <= j < i ==> GroupPasses(projectFileDependencyGroups[j], spec)
      {
        var group := projectFileDependencyGroups[i];
        var actualDependencies: seq<string>;
        var expectedDependencies := group.dependencies;
        if IsNullOrEmpty(group.frameworkName) {
          actualDependencies := RenderDependencies(spec.dependencies);
        } else {
          var framework := FindFramework(actualTargetFrameworks, group.frameworkName.value);
          if framework.None? {
            return false;
          }
          actualDependencies := RenderDependencies(framework.value.dependencies);
        }
        if !SameDependencies(actualDependencies, expectedDependencies) {
          return false;
        }
      }
      return true;
    }

    /** Renders each dependency in turn, as the `Select` over the dependencies does. */
    static method RenderDependencies(deps: seq<LibraryDependency>) returns (rendered: seq<string>)
      requires AllRenderable(deps)
      ensures rendered == RenderAll(deps)
    {
      rendered := [];
      for i := 0 to |deps|
        invariant rendered == RenderAll(deps[..i])
      {
        var s := LibraryRangeToString(deps[i].libraryRange);
        rendered := rendered + [s];
      }
      assert deps[..|deps|] == deps;
    }

    /** The canonical string of a `LibraryRange`. */
    static method LibraryRangeToString(libraryRange: LibraryRange) returns (s: string)
      requires RangeRenderable(libraryRange.versionRange)
      ensures s == RangeText(libraryRange.name, libraryRange.versionRange)
    {
      s := RuntimeStyleLibraryRangeToString(libraryRange.name, libraryRange.versionRange);
    }

    /** Builds the canonical string of a dependency by appending its parts one after another. */
    static method RuntimeStyleLibraryRangeToString(name: string, versionRange: Option<VersionRange>) returns (s: string)
      requires RangeRenderable(versionRange)
      ensures s == RangeText(name, versionRange)
    {
      var sb := name;
      sb := sb + " ";
      if versionRange.None? {
        return sb;
      }
      var minVersion := versionRange.value.minVersion;
      var maxVersion := versionRange.value.maxVersion;
      sb := sb + ">= ";
      if versionRange.value.isFloating {
        sb := sb + versionRange.value.float.value.text;
      } else {
        sb := sb + minVersion.value.text;
      }
      if maxVersion.Some? {
        sb := sb + (if versionRange.value.isMaxInclusive then "<= " else "< ");
        sb := sb + maxVersion.value.versionText;
      }
      return sb;
    }

    /**
     * The first target for `framework` and `runtimeIdentifier`, or none.
     */
    function GetTarget(framework: NuGetFramework, runtimeIdentifier: NullableString): (r: Option<LockFileTarget>)
      reads this
      ensures r.None? <==> forall j :: 0 <= j < |targets| ==> !TargetMatches(targets[j], framework, runtimeIdentifier)
      ensures r.Some? ==> exists i :: 0 <= i < |targets| && targets[i] == r.value
                            && TargetMatches(targets[i], framework, runtimeIdentifier)
                            && forall j :: 0 <= j < i ==> !TargetMatches(targets[j], framework, runtimeIdentifier)
    {
      FirstOrDefault(targets, t => TargetMatches(t, framework, runtimeIdentifier))
    }

    /** The first library named `name` (case-sensitive) with a version equal to `version`, or none. */
    function GetLibrary(name: string, version: NuGetVersion): (r: Option<LockFileLibrary>)
      reads this
      ensures r.None? <==> forall j :: 0 <= j < |libraries| ==> !LibraryMatches(libraries[j], name, version)
      ensures r.Some? ==> exists i :: 0 <= i < |libraries| && libraries[i] == r.value
                            && LibraryMatches(libraries[i], name, version)
                            && forall j :: 0 <= j < i ==> !LibraryMatches(libraries[j], name, version)
    {
      FirstOrDefault(libraries, l => LibraryMatches(l, name, version))
    }
  }
}
