/** The dependency records a project specification declares. */
module LibraryModel {
  import opened Wrappers
  import opened Versioning

  /** A `LibraryRange`: a library name and an optional version range. */
  datatype LibraryRange = LibraryRange(name: string, versionRange: Option<VersionRange>)

  /** A `LibraryDependency`; only its `LibraryRange` is used by the lock file code. */
  datatype LibraryDependency = LibraryDependency(libraryRange: LibraryRange)

  /** A range that rendering can print: absent, or renderable. */
  predicate RangeRenderable(range: Option<VersionRange>)
  {
    range.Some? ==> Renderable(range.value)
  }

  predicate DependencyRenderable(d: LibraryDependency)
  {
    RangeRenderable(d.libraryRange.versionRange)
  }

  predicate AllRenderable(deps: seq<LibraryDependency>)
  {
    forall i :: 0 <= i < |deps| ==> DependencyRenderable(deps[i])
  }
}
