/**
 * What the lock file checks guarantee: the gates of the validator, that the
 * order of groups and of stored strings does not matter, that any single
 * wrong string is caught, that the lock file a restore would write passes,
 * and how the two lookups choose their result.
 */
module LockFileProperties {
  import opened Wrappers
  import opened Text
  import opened Linq
  import opened Versioning
  import opened Frameworks
  import opened LibraryModel
  import opened RangeStrings
  import opened ProjectModel

  /** A stale format version or a wrong number of groups fails the lock file whatever its groups hold. */
  lemma StructuralGates(version: int, groups: seq<ProjectFileDependencyGroup>, spec: PackageSpec)
    requires SpecRenderable(spec)
    ensures version != LockFileFormatVersion ==> !ValidForPackageSpec(version, groups, spec)
    ensures |groups| != |spec.targetFrameworks| + 1 ==> !ValidForPackageSpec(version, groups, spec)
  {
  }

  /** The verdict does not depend on the order in which the groups are recorded. */
  lemma GroupOrderIrrelevant(version: int, g1: seq<ProjectFileDependencyGroup>, g2: seq<ProjectFileDependencyGroup>, spec: PackageSpec)
    requires SpecRenderable(spec)
    requires multiset(g1) == multiset(g2)
    ensures ValidForPackageSpec(version, g1, spec) == ValidForPackageSpec(version, g2, spec)
  {
    assert |g1| == |multiset(g1)| == |multiset(g2)| == |g2|;
    forall a: seq<ProjectFileDependencyGroup>, b: seq<ProjectFileDependencyGroup> |
      multiset(a) == multiset(b) && (forall i :: 0 <= i < |a| ==> GroupPasses(a[i], spec))
      ensures forall j :: 0 <= j < |b| ==> GroupPasses(b[j], spec)
    {
      forall j | 0 <= j < |b| ensures GroupPasses(b[j], spec) {
        assert b[j] in multiset(b);
        assert b[j] in a;
        var i :| 0 <= i < |a| && a[i] == b[j];
      }
    }
  }

  /** Two groups for the same framework name that both pass record the same strings, each as often. */
  lemma PassingGroupsAgree(g: ProjectFileDependencyGroup, h: ProjectFileDependencyGroup, spec: PackageSpec)
    requires SpecRenderable(spec)
    requires g.frameworkName == h.frameworkName
    requires GroupPasses(g, spec) && GroupPasses(h, spec)
    ensures multiset(g.dependencies) == multiset(h.dependencies)
  {
  }

  /** The verdict does not depend on the order of the strings stored in a group. */
  lemma DependencyOrderIrrelevant(version: int, groups: seq<ProjectFileDependencyGroup>, spec: PackageSpec, k: int, deps: seq<string>)
    requires SpecRenderable(spec)
    requires 0 <= k < |groups|
    requires multiset(deps) == multiset(groups[k].dependencies)
    ensures ValidForPackageSpec(version, groups[k := groups[k].(dependencies := deps)], spec)
         == ValidForPackageSpec(version, groups, spec)
  {
    var groups' := groups[k := groups[k].(dependencies := deps)];
    assert GroupPasses(groups'[k], spec) == GroupPasses(groups[k], spec);
    assert forall i :: 0 <= i < |groups| && i != k ==> groups'[i] == groups[i];
  }

  /** Dropping any one stored string from a valid lock file makes it invalid. */
  lemma RemovingDependencyInvalidates(version: int, groups: seq<ProjectFileDependencyGroup>, spec: PackageSpec, k: int, m: int)
    requires SpecRenderable(spec)
    requires ValidForPackageSpec(version, groups, spec)
    requires 0 <= k < |groups| && 0 <= m < |groups[k].dependencies|
    ensures
      var deps := groups[k].dependencies;
      !ValidForPackageSpec(version, groups[k := groups[k].(dependencies := deps[..m] + deps[m + 1..])], spec)
  {
    var g := groups[k];
    var deps := g.dependencies;
    var h := g.(dependencies := deps[..m] + deps[m + 1..]);
    assert deps == deps[..m] + [deps[m]] + deps[m + 1..];
    assert multiset(h.dependencies) != multiset(deps);
    assert !GroupPasses(groups[k := h][k], spec);
  }

  /** Replacing any one stored string of a valid lock file by a different string makes it invalid. */
  lemma ReplacingDependencyInvalidates(version: int, groups: seq<ProjectFileDependencyGroup>, spec: PackageSpec, k: int, m: int, s: string)
    requires SpecRenderable(spec)
    requires ValidForPackageSpec(version, groups, spec)
    requires 0 <= k < |groups| && 0 <= m < |groups[k].dependencies|
    requires s != groups[k].dependencies[m]
    ensures !ValidForPackageSpec(version, groups[k := groups[k].(dependencies := groups[k].dependencies[m := s])], spec)
  {
    var g := groups[k];
    var deps := g.dependencies;
    var h := g.(dependencies := deps[m := s]);
    assert multiset(deps[m := s]) == multiset(deps) - multiset{deps[m]} + multiset{s};
    assert multiset(h.dependencies)[s] > multiset(deps)[s];
    assert !GroupPasses(groups[k := h][k], spec);
  }

  /**
   * A group with a framework name is checked against the first declared
   * framework whose display name matches it ignoring case, and fails when
   * there is none.
   */
  lemma NamedGroupUsesFirstFramework(g: ProjectFileDependencyGroup, spec: PackageSpec)
    requires SpecRenderable(spec)
    requires !IsNullOrEmpty(g.frameworkName)
    ensures (forall j :: 0 <= j < |spec.targetFrameworks| ==> !NamesFramework(spec.targetFrameworks[j], g.frameworkName.value))
            ==> !GroupPasses(g, spec)
    ensures forall i :: IsFirstMatch(spec.targetFrameworks, f => NamesFramework(f, g.frameworkName.value), i) ==>
              (GroupPasses(g, spec) <==> SameDependencies(RenderAll(spec.targetFrameworks[i].dependencies), g.dependencies))
  {
    var tfs, name := spec.targetFrameworks, g.frameworkName.value;
    forall i | IsFirstMatch(tfs, f => NamesFramework(f, name), i)
      ensures GroupPasses(g, spec) <==> SameDependencies(RenderAll(tfs[i].dependencies), g.dependencies)
    {
      FirstOrDefaultAt(tfs, f => NamesFramework(f, name), i);
    }
  }

  /** Group names are compared ignoring case: groups whose names differ only in case pass alike. */
  lemma GroupNameCaseInsensitive(g: ProjectFileDependencyGroup, name: string, spec: PackageSpec)
    requires SpecRenderable(spec)
    requires !IsNullOrEmpty(g.frameworkName)
    requires EqualsIgnoreCase(g.frameworkName.value, name)
    ensures GroupPasses(g.(frameworkName := Some(name)), spec) == GroupPasses(g, spec)
  {
    var tfs := spec.targetFrameworks;
    EqualsIgnoreCaseLength(g.frameworkName.value, name);
    forall j | 0 <= j < |tfs|
      ensures NamesFramework(tfs[j], name) == NamesFramework(tfs[j], g.frameworkName.value)
    {
      EqualsIgnoreCaseEquivalence(tfs[j].frameworkName.text, name, g.frameworkName.value);
      EqualsIgnoreCaseEquivalence(tfs[j].frameworkName.text, g.frameworkName.value, name);
    }
    FirstOrDefaultCongruence(tfs, f => NamesFramework(f, name), f => NamesFramework(f, g.frameworkName.value));
  }

  /**
   * The dependency groups a restore records for `spec`: the shared group,
   * then one group per declared framework under its display name.
   */
  function GeneratedGroups(spec: PackageSpec): (groups: seq<ProjectFileDependencyGroup>)
    requires SpecRenderable(spec)
    ensures |groups| == |spec.targetFrameworks| + 1
  {
    [ProjectFileDependencyGroup(None, RenderAll(spec.dependencies))]
      + seq(|spec.targetFrameworks|, i requires 0 <= i < |spec.targetFrameworks| =>
              ProjectFileDependencyGroup(Some(spec.targetFrameworks[i].frameworkName.text),
                                         RenderAll(spec.targetFrameworks[i].dependencies)))
  }

  /** Declared frameworks have non-empty display names that differ from each other even ignoring case. */
  predicate DistinctFrameworkNames(spec: PackageSpec)
  {
    forall i, j :: 0 <= i < |spec.targetFrameworks| && 0 <= j < |spec.targetFrameworks| ==>
      spec.targetFrameworks[i].frameworkName.text != "" &&
      (i != j ==> !EqualsIgnoreCase(spec.targetFrameworks[i].frameworkName.text, spec.targetFrameworks[j].frameworkName.text))
  }

  /**
   * A lock file holding exactly the generated groups, in any order, with the
   * current format version is valid for the specification it was generated from.
   */
  lemma GeneratedLockFileIsValid(spec: PackageSpec, groups: seq<ProjectFileDependencyGroup>)
    requires SpecRenderable(spec)
    requires DistinctFrameworkNames(spec)
    requires multiset(groups) == multiset(GeneratedGroups(spec))
    ensures ValidForPackageSpec(LockFileFormatVersion, groups, spec)
  {
    var tfs := spec.targetFrameworks;
    var gen := GeneratedGroups(spec);
    forall k | 0 <= k < |gen| ensures GroupPasses(gen[k], spec) {
      if k > 0 {
        var i := k - 1;
        var name := tfs[i].frameworkName.text;
        EqualsIgnoreCaseEquivalence(name, name, name);
        assert IsFirstMatch(tfs, f => NamesFramework(f, name), i) by {
          forall j | 0 <= j < i ensures !NamesFramework(tfs[j], name) {
            EqualsIgnoreCaseEquivalence(tfs[j].frameworkName.text, name, name);
          }
        }
        FirstOrDefaultAt(tfs, f => NamesFramework(f, name), i);
      }
    }
    assert ValidForPackageSpec(LockFileFormatVersion, gen, spec);
    GroupOrderIrrelevant(LockFileFormatVersion, gen, groups, spec);
  }

  /**
   * The group count is the only structural check: two shared groups and no
   * group for the one declared framework still pass.
   */
  lemma SharedGroupMayStandInForFramework()
    ensures
      var net45 := TargetFrameworkInformation(NuGetFramework("net45", ".NETFramework,Version=v4.5"), []);
      var spec := PackageSpec([], [net45]);
      var shared := ProjectFileDependencyGroup(Some(""), []);
      ValidForPackageSpec(LockFileFormatVersion, [shared, shared], spec)
  {
  }

  /** Two runtime identifiers that are equal ignoring case, or both null or empty, select the same target. */
  lemma GetTargetRuntimeIdentifierCase(lf: LockFile, framework: NuGetFramework, a: NullableString, b: NullableString)
    requires NullableEqualsIgnoreCase(a, b) || (IsNullOrEmpty(a) && IsNullOrEmpty(b))
    ensures lf.GetTarget(framework, a) == lf.GetTarget(framework, b)
  {
    forall j | 0 <= j < |lf.targets|
      ensures TargetMatches(lf.targets[j], framework, a) == TargetMatches(lf.targets[j], framework, b)
    {
      var rid := lf.targets[j].runtimeIdentifier;
      if a.Some? && b.Some? {
        EqualsIgnoreCaseLength(a.value, b.value);
        if rid.Some? {
          EqualsIgnoreCaseEquivalence(a.value, b.value, rid.value);
          EqualsIgnoreCaseEquivalence(b.value, a.value, rid.value);
        }
      }
      if rid.Some? {
        if a.Some? && a.value == "" && NullableEqualsIgnoreCase(a, rid) { EqualsIgnoreCaseLength(a.value, rid.value); }
        if b.Some? && b.value == "" && NullableEqualsIgnoreCase(b, rid) { EqualsIgnoreCaseLength(b.value, rid.value); }
      }
    }
    FirstOrDefaultCongruence(lf.targets, t => TargetMatches(t, framework, a), t => TargetMatches(t, framework, b));
  }

  /** When no two libraries share a name and an equal version, each is found by its own name and version. */
  lemma GetLibraryFindsEach(lf: LockFile, k: int)
    requires 0 <= k < |lf.libraries|
    requires forall i, j :: 0 <= i < |lf.libraries| && 0 <= j < |lf.libraries| &&
               LibraryMatches(lf.libraries[i], lf.libraries[j].name, lf.libraries[j].version)
               ==> i == j
    ensures lf.GetLibrary(lf.libraries[k].name, lf.libraries[k].version) == Some(lf.libraries[k])
  {
    var l := lf.libraries[k];
    assert LibraryMatches(l, l.name, l.version);
  }

  /** When no two targets share a framework and a runtime identifier, each is found by its own pair. */
  lemma GetTargetFindsEach(lf: LockFile, k: int)
    requires 0 <= k < |lf.targets|
    requires forall i, j :: 0 <= i < |lf.targets| && 0 <= j < |lf.targets| &&
               TargetMatches(lf.targets[i], lf.targets[j].targetFramework, lf.targets[j].runtimeIdentifier)
               ==> i == j
    ensures lf.GetTarget(lf.targets[k].targetFramework, lf.targets[k].runtimeIdentifier) == Some(lf.targets[k])
  {
    var t := lf.targets[k];
    if t.runtimeIdentifier.Some? {
      EqualsIgnoreCaseEquivalence(t.runtimeIdentifier.value, t.runtimeIdentifier.value, t.runtimeIdentifier.value);
    }
    assert TargetMatches(t, t.targetFramework, t.runtimeIdentifier);
  }
}
